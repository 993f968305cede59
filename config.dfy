// The daemon's configuration (config.c, config.h): the scan functions a
// device button can request, scan parameters as `id` plus a 16-byte value
// slot, the built-in "default" preset, the first-match searches over the
// preset and item lists, and the line-by-line dispatch of config_init over
// lines already split into their tokens.

module Config {

  import opened Bytes

  /** CONFIG_SCAN_MAX_PARAMS, and the size of a scan_param value slot. */
  const MAX_PARAMS: nat := 16
  const VALUE_SIZE: nat := 16
  /** CONFIG_SCAN_MAX_FUNCS */
  const MAX_FUNCS: nat := 4
  /** SCAN_FUNC_INVALID */
  const SCAN_FUNC_INVALID: int := -1
  const DEFAULT_TIMEOUT_SEC: nat := 5
  const DEFAULT_PAGE_INIT_TIMEOUT: nat := 15
  const DEFAULT_PAGE_FINISH_TIMEOUT: nat := 60

  // The byte strings the defaults are made of, spelled out in ASCII.
  const IMAGE: seq<byte> := [73, 77, 65, 71, 69]  // "IMAGE"
  const OCR: seq<byte> := [79, 67, 82]  // "OCR"
  const EMAIL: seq<byte> := [69, 77, 65, 73, 76]  // "EMAIL"
  const FILE: seq<byte> := [70, 73, 76, 69]  // "FILE"
  const DEFAULT: seq<byte> := [100, 101, 102, 97, 117, 108, 116]  // "default"
  const JPEG: seq<byte> := [74, 80, 69, 71]  // "JPEG"
  const SIN: seq<byte> := [83, 73, 78]  // "SIN"
  const CGRAY: seq<byte> := [67, 71, 82, 65, 89]  // "CGRAY"
  const A4: seq<byte> := [65, 52]  // "A4"
  const FIFTY: seq<byte> := [53, 48]  // "50"
  const ONE: seq<byte> := [49]  // "1"
  const V128: seq<byte> := [49, 50, 56]  // "128"
  const RES_300: seq<byte> := [51, 48, 48, 44, 51, 48, 48]  // "300,300"

  /** g_scan_func_str, indexed by enum scan_func. */
  function ScanFuncNames(): (r: seq<seq<byte>>)
    ensures |r| == MAX_FUNCS
  {
    [IMAGE, OCR, EMAIL, FILE]
  }

  /** config_get_scan_func_by_name: the index of the first name equal to
      name, SCAN_FUNC_INVALID when none is. */
  function ScanFuncByName(name: seq<byte>): (r: int)
    ensures -1 <= r < MAX_FUNCS
    ensures r >= 0 ==> ScanFuncNames()[r] == name && forall k :: 0 <= k < r ==> ScanFuncNames()[k] != name
    ensures r == SCAN_FUNC_INVALID <==> name !in ScanFuncNames()
  {
    ScanFuncFrom(name, 0)
  }

  function ScanFuncFrom(name: seq<byte>, i: nat): (r: int)
    requires i <= MAX_FUNCS
    ensures r == -1 || i <= r < MAX_FUNCS
    ensures r >= 0 ==> ScanFuncNames()[r] == name && forall k :: i <= k < r ==> ScanFuncNames()[k] != name
    ensures r == -1 <==> forall k :: i <= k < MAX_FUNCS ==> ScanFuncNames()[k] != name
    decreases MAX_FUNCS - i
  {
    if i == MAX_FUNCS then -1
    else if ScanFuncNames()[i] == name then i
    else ScanFuncFrom(name, i + 1)
  }

  /** Every function name maps back to its own index. */
  lemma ScanFuncNamesDistinct(i: nat)
    requires i < MAX_FUNCS
    ensures ScanFuncByName(ScanFuncNames()[i]) == i
  {
    var names := ScanFuncNames();
    assert names[0][0] == 'I' as int && names[1][0] == 'O' as int;
    assert names[2][0] == 'E' as int && names[3][0] == 'F' as int;
  }

  /** struct scan_param: a one-byte id and a 16-byte value slot that holds
      a NUL-terminated string. */
  datatype ScanParam = ScanParam(id: byte, value: seq<byte>)

  function Zeros(n: nat): (r: seq<byte>)
    ensures |r| == n && forall k :: 0 <= k < n ==> r[k] == 0
  {
    if n == 0 then [] else [0] + Zeros(n - 1)
  }

  /** A calloc'ed slot after strcpy(slot, v), v cut to the slot size. */
  function Slot(v: seq<byte>): (r: seq<byte>)
    ensures |r| == VALUE_SIZE
  {
    if |v| >= VALUE_SIZE then v[..VALUE_SIZE] else v + [0] + Zeros(VALUE_SIZE - |v| - 1)
  }

  /** A string that fits comes back out of its slot. */
  lemma SlotHolds(v: seq<byte>)
    requires |v| < VALUE_SIZE && 0 !in v
    ensures CStr(Slot(v)) == v
  {
    CStrOfTerminated(v, Zeros(VALUE_SIZE - |v| - 1));
  }

  /** Sixteen params whose slots are all sixteen bytes long. */
  predicate ParamsShape(params: seq<ScanParam>)
  {
    |params| == MAX_PARAMS && forall k :: 0 <= k < |params| ==> |params[k].value| == VALUE_SIZE
  }

  /** struct item_config: a preset, or an item of a device. */
  datatype Item = Item(
    password: Option<seq<byte>>,
    hostname: seq<byte>,
    scanFunc: int,
    pageInitTimeout: nat,
    pageFinishTimeout: nat,
    scanParams: seq<ScanParam>,
    scanCommand: Option<seq<byte>>,
    appnum: nat)

  /** struct device_config */
  datatype Device = Device(ip: seq<byte>, timeout: nat, items: seq<Item>)

  /** The ids of the default preset's parameters, "ABCDEFGJLMNPRT" in slot
      order; the last two slots stay zeroed from calloc. */
  const DEFAULT_IDS: seq<byte> := [65, 66, 67, 68, 69, 70, 71, 74, 76, 77, 78, 80, 82, 84] + [0, 0]

  /** The default parameters as init_default_device_config sets them. */
  function DefaultParams(): (r: seq<ScanParam>)
    ensures ParamsShape(r)
    ensures forall k :: 0 <= k < MAX_PARAMS ==> r[k].id == DEFAULT_IDS[k]
  {
    [ScanParam('A' as int, Slot([])), ScanParam('B' as int, Slot(FIFTY)),
     ScanParam('C' as int, Slot(JPEG)), ScanParam('D' as int, Slot(SIN)),
     ScanParam('E' as int, Slot([])), ScanParam('F' as int, Slot([])),
     ScanParam('G' as int, Slot(ONE)), ScanParam('J' as int, Slot([])),
     ScanParam('L' as int, Slot(V128)), ScanParam('M' as int, Slot(CGRAY)),
     ScanParam('N' as int, Slot(FIFTY)), ScanParam('P' as int, Slot(A4)),
     ScanParam('R' as int, Slot(RES_300)), ScanParam('T' as int, Slot(JPEG)),
     ScanParam(0, Slot([])), ScanParam(0, Slot([]))]
  }

  /** init_default_device_config on a calloc'ed item: the hostname, the
      default page timeouts and the fourteen default parameters. */
  function DefaultPreset(hostname: seq<byte>): (r: Item)
    ensures r.hostname == hostname && r.password.None? && r.scanCommand.None?
    ensures r.pageInitTimeout == 15 && r.pageFinishTimeout == 60
    ensures r.scanFunc == 0 && r.appnum == 0
    ensures r.scanParams == DefaultParams()
  {
    Item(None, hostname, 0, DEFAULT_PAGE_INIT_TIMEOUT, DEFAULT_PAGE_FINISH_TIMEOUT,
         DefaultParams(), None, 0)
  }

  /** A few of the default values spelled out: the resolution is 300 by 300,
      the colour mode CGRAY, the paper A4, and A is empty. */
  lemma DefaultPresetValues()
    ensures DefaultParams()[12].id == 'R' as int && CStr(DefaultParams()[12].value) == RES_300
    ensures DefaultParams()[9].id == 'M' as int && CStr(DefaultParams()[9].value) == CGRAY
    ensures DefaultParams()[11].id == 'P' as int && CStr(DefaultParams()[11].value) == A4
    ensures DefaultParams()[0].id == 'A' as int && CStr(DefaultParams()[0].value) == []
    ensures DefaultParams()[3].id == 'D' as int && CStr(DefaultParams()[3].value) == SIN
    ensures CStr(DefaultParams()[14].value) == [] && CStr(DefaultParams()[15].value) == []
  {
    SlotHolds(RES_300);
    SlotHolds(CGRAY);
    SlotHolds(A4);
    SlotHolds(SIN);
    SlotHolds([]);
  }

  /** find_preset: the first preset, in list order, whose hostname is name. */
  function FindPreset(presets: seq<Item>, name: seq<byte>): (r: Option<nat>)
    ensures r.Some? ==> r.value < |presets| && presets[r.value].hostname == name
    ensures r.Some? ==> forall k :: 0 <= k < r.value ==> presets[k].hostname != name
    ensures r.None? <==> forall k :: 0 <= k < |presets| ==> presets[k].hostname != name
  {
    if presets == [] then None
    else if presets[0].hostname == name then Some(0)
    else match FindPreset(presets[1..], name)
      case None => None
      case Some(k) => Some(k + 1)
  }

  /** config_find_by_func_and_name: the first item of the device whose scan
      function and hostname both match. */
  function FindByFuncAndName(items: seq<Item>, func: int, name: seq<byte>): (r: Option<nat>)
    ensures r.Some? ==> r.value < |items| && items[r.value].scanFunc == func && items[r.value].hostname == name
    ensures r.Some? ==> forall k :: 0 <= k < r.value ==> !(items[k].scanFunc == func && items[k].hostname == name)
    ensures r.None? <==> forall k :: 0 <= k < |items| ==> !(items[k].scanFunc == func && items[k].hostname == name)
  {
    if items == [] then None
    else if items[0].scanFunc == func && items[0].hostname == name then Some(0)
    else match FindByFuncAndName(items[1..], func, name)
      case None => None
      case Some(k) => Some(k + 1)
  }

  // ---------------------------------------------------------------------
  // config_init

  /** One configuration line, split the way config_init's sscanf patterns
      split it; the widths of the patterns are the token limits. */
  datatype Line =
    | DefinePreset(name: seq<byte>)
    | Ip(addr: seq<byte>)
    | PresetLine(preset: seq<byte>, func: seq<byte>)
    | NetworkTimeout(seconds: nat)
    | Hostname(hostname: seq<byte>)
    | Password(password: seq<byte>)
    | PageInitTimeout(seconds: nat)
    | PageFinishTimeout(seconds: nat)
    | ScanParamLine(id: byte, value: seq<byte>)
    | ScanFunc(command: seq<byte>)
    | Comment
    | Unrecognised

  /** The bytes sscanf counts as white space: blank, \t, \n, \v, \f, \r. */
  predicate IsSpace(b: byte)
  {
    b == 32 || 9 <= b <= 13
  }

  /** What a %Ns conversion stores: one to N bytes, none of them white
      space or NUL. */
  predicate Token(s: seq<byte>, width: nat)
  {
    0 < |s| <= width && 0 !in s && forall j :: 0 <= j < |s| ==> !IsSpace(s[j])
  }

  /** The tokens config_init's sscanf patterns let through: %15s, %64s and
      %4s tokens, a %c that follows the skipped blanks (so neither white
      space nor the NUL that ends the line), and the non-empty rest of the
      line %1024[^\n] takes. */
  predicate Tokenised(line: Line)
  {
    match line
    case DefinePreset(name) => Token(name, 15)
    case Ip(addr) => Token(addr, 64)
    case PresetLine(preset, func) => Token(preset, 15) && Token(func, 15)
    case Hostname(hostname) => Token(hostname, 15)
    case Password(password) => Token(password, 4)
    case ScanParamLine(id, value) => id != 0 && !IsSpace(id) && Token(value, 15)
    case ScanFunc(command) => 0 < |command| <= 1024 && 0 !in command && 10 !in command
    case _ => true
  }

  /** The item the hostname/password/timeout/scan.param lines change: none
      after an `ip` line, a preset of the list (0 is "default", the initial
      one), or the last item added to the current device. */
  datatype Cursor = NoItem | PresetAt(preset: nat) | ItemAt(item: nat)

  /** The locals of config_init: the preset list, the devices (the global
      list; the current device is always the last one), the cursor and the
      scan.param counter, which is never reset. */
  datatype ParseState = ParseState(
    presets: seq<Item>, devices: seq<Device>, hasDevice: bool, cursor: Cursor, paramCount: nat)

  /** The sixteen fixed-size parameter slots every item carries. */
  predicate ItemShaped(item: Item)
  {
    ParamsShape(item.scanParams)
  }

  predicate DeviceShaped(dev: Device)
  {
    forall k :: 0 <= k < |dev.items| ==> ItemShaped(dev.items[k])
  }

  /** What config_init keeps true between lines: the "default" preset is
      there, the cursor points at an existing item, and every item has its
      sixteen slots. */
  predicate Good(st: ParseState)
  {
    CursorOk(st) && AllShaped(st)
  }

  predicate CursorOk(st: ParseState)
  {
    |st.presets| >= 1 &&
    (st.hasDevice ==> |st.devices| >= 1) &&
    match st.cursor
    case NoItem => true
    case PresetAt(k) => k < |st.presets|
    case ItemAt(k) => st.hasDevice && k < |st.devices[|st.devices| - 1].items|
  }

  predicate AllShaped(st: ParseState)
  {
    (forall k :: 0 <= k < |st.presets| ==> ItemShaped(st.presets[k])) &&
    (forall d :: 0 <= d < |st.devices| ==> DeviceShaped(st.devices[d]))
  }

  /** Why config_init gives up on a line. */
  datatype ConfigError =
    | PresetWithoutDevice | UndefinedPreset | InvalidFunc | TimeoutWithoutDevice
    | WithoutPreset | TooManyParams | UnknownParam | InvalidOption

  /** The state right after TAILQ_INIT and the insertion of "default". */
  function InitialState(): (st: ParseState)
    ensures Good(st)
  {
    ParseState([DefaultPreset(DEFAULT)], [], false, PresetAt(0), 0)
  }

  function Current(st: ParseState): (r: Item)
    requires Good(st) && st.cursor != NoItem
    ensures ItemShaped(r)
  {
    match st.cursor
    case PresetAt(k) => st.presets[k]
    case ItemAt(k) =>
      assert DeviceShaped(st.devices[|st.devices| - 1]);
      st.devices[|st.devices| - 1].items[k]
  }

  /** The state with the current item replaced. */
  function SetCurrent(st: ParseState, item: Item): (r: ParseState)
    requires Good(st) && st.cursor != NoItem && ItemShaped(item)
    ensures Good(r) && r.cursor == st.cursor && Current(r) == item
    ensures |r.presets| == |st.presets| && |r.devices| == |st.devices| && r.hasDevice == st.hasDevice
    ensures r.paramCount == st.paramCount
  {
    match st.cursor
    case PresetAt(k) => st.(presets := st.presets[k := item])
    case ItemAt(k) =>
      var d := |st.devices| - 1;
      var dev := st.devices[d];
      assert DeviceShaped(dev.(items := dev.items[k := item]));
      st.(devices := st.devices[d := dev.(items := dev.items[k := item])])
  }

  /** The first parameter slot with the given id. */
  function ParamIndex(params: seq<ScanParam>, id: byte): (r: Option<nat>)
    ensures r.Some? ==> r.value < |params| && params[r.value].id == id
    ensures r.Some? ==> forall k :: 0 <= k < r.value ==> params[k].id != id
    ensures r.None? <==> forall k :: 0 <= k < |params| ==> params[k].id != id
  {
    if params == [] then None
    else if params[0].id == id then Some(0)
    else match ParamIndex(params[1..], id)
      case None => None
      case Some(k) => Some(k + 1)
  }

  // One step per kind of line; each keeps Good.

  function DefinePresetStep(st: ParseState, name: seq<byte>): (r: ParseState)
    requires Good(st)
    ensures Good(r)
  {
    var preset := st.presets[0].(hostname := name);
    st.(presets := st.presets + [preset], cursor := PresetAt(|st.presets|))
  }

  function IpStep(st: ParseState, addr: seq<byte>): (r: ParseState)
    requires Good(st)
    ensures Good(r)
  {
    st.(devices := st.devices + [Device(addr, DEFAULT_TIMEOUT_SEC, [])], hasDevice := true, cursor := NoItem)
  }

  function AddItem(st: ParseState, item: Item): (r: ParseState)
    requires Good(st) && st.hasDevice && ItemShaped(item)
    ensures Good(r)
  {
    var d := |st.devices| - 1;
    var dev := st.devices[d];
    assert DeviceShaped(dev.(items := dev.items + [item]));
    st.(devices := st.devices[d := dev.(items := dev.items + [item])], cursor := ItemAt(|dev.items|))
  }

  function TimeoutStep(st: ParseState, seconds: nat): (r: ParseState)
    requires Good(st) && st.hasDevice
    ensures Good(r)
  {
    var d := |st.devices| - 1;
    st.(devices := st.devices[d := st.devices[d].(timeout := seconds)])
  }

  /** The strcpy of a scan.param value into slot k of an item. */
  function SetParam(item: Item, k: nat, value: seq<byte>): (r: Item)
    requires ItemShaped(item) && k < MAX_PARAMS && |value| <= 15 && 0 !in value
    ensures ItemShaped(r)
  {
    var param := item.scanParams[k];
    item.(scanParams := item.scanParams[k := param.(value := StrCpy(param.value, value))])
  }

  /** The effect of one line: the new state, or the error that makes
      config_init return -1. */
  function ApplyLine(st: ParseState, line: Line): (r: Result<ParseState, ConfigError>)
    requires Good(st) && Tokenised(line)
    ensures r.Success? ==> Good(r.value)
  {
    match line
    case DefinePreset(name) => Success(DefinePresetStep(st, name))
    case Ip(addr) => Success(IpStep(st, addr))
    case PresetLine(name, funcName) =>
      if !st.hasDevice then Failure(PresetWithoutDevice)
      else
        var found := FindPreset(st.presets, name);
        if found.None? then Failure(UndefinedPreset)
        else
          var func := ScanFuncByName(funcName);
          if func == SCAN_FUNC_INVALID then Failure(InvalidFunc)
          else Success(AddItem(st, st.presets[found.value].(scanFunc := func)))
    case NetworkTimeout(seconds) =>
      if !st.hasDevice then Failure(TimeoutWithoutDevice)
      else Success(TimeoutStep(st, seconds))
    case Hostname(hostname) =>
      if st.cursor == NoItem then Failure(WithoutPreset)
      else Success(SetCurrent(st, Current(st).(hostname := hostname)))
    case Password(password) =>
      if st.cursor == NoItem then Failure(WithoutPreset)
      else Success(SetCurrent(st, Current(st).(password := Some(password))))
    case PageInitTimeout(seconds) =>
      if st.cursor == NoItem then Failure(WithoutPreset)
      else Success(SetCurrent(st, Current(st).(pageInitTimeout := seconds)))
    case PageFinishTimeout(seconds) =>
      if st.cursor == NoItem then Failure(WithoutPreset)
      else Success(SetCurrent(st, Current(st).(pageFinishTimeout := seconds)))
    case ScanParamLine(id, value) =>
      if st.cursor == NoItem then Failure(WithoutPreset)
      else if st.paramCount >= MAX_PARAMS then Failure(TooManyParams)
      else
        var found := ParamIndex(Current(st).scanParams, id);
        if found.None? then Failure(UnknownParam)
        else Success(SetCurrent(st, SetParam(Current(st), found.value, value)).(paramCount := st.paramCount + 1))
    case ScanFunc(command) =>
      if st.cursor == NoItem then Failure(WithoutPreset)
      else Success(SetCurrent(st, Current(st).(scanCommand := Some(command))))
    case Comment => Success(st)
    case Unrecognised => Failure(InvalidOption)
  }

  /** config_init's return value and the device list it leaves in g_config. */
  datatype InitResult = InitResult(rc: int, devices: seq<Device>)

  /** The lines applied in order until the first error. */
  function RunLines(st: ParseState, lines: seq<Line>): (r: InitResult)
    requires Good(st)
    requires forall k :: 0 <= k < |lines| ==> Tokenised(lines[k])
    ensures r.rc == 0 || r.rc == -1
    decreases |lines|
  {
    if lines == [] then InitResult(0, st.devices)
    else match ApplyLine(st, lines[0])
      case Failure(_) => InitResult(-1, st.devices)
      case Success(next) => RunLines(next, lines[1..])
  }

  /** config_init over the lines of the file. */
  method ConfigInit(lines: seq<Line>) returns (rc: int, devices: seq<Device>)
    requires forall k :: 0 <= k < |lines| ==> Tokenised(lines[k])
    ensures InitResult(rc, devices) == RunLines(InitialState(), lines)
  {
    var st := InitialState();
    var i := 0;
    while i < |lines|
      invariant i <= |lines| && Good(st)
      invariant RunLines(st, lines[i..]) == RunLines(InitialState(), lines)
    {
      assert lines[i..][0] == lines[i] && lines[i..][1..] == lines[i + 1..];
      var r := ApplyLine(st, lines[i]);
      if r.Failure? {
        return -1, st.devices;
      }
      st := r.value;
      i := i + 1;
    }
    return 0, st.devices;
  }

  // ---------------------------------------------------------------------
  // What the lines do.

  /** An `ip` line appends a device with the default timeout and no items,
      and leaves no current item, so a following hostname line fails. */
  lemma IpLine(st: ParseState, addr: seq<byte>, hostname: seq<byte>)
    requires Good(st) && Tokenised(Ip(addr)) && Tokenised(Hostname(hostname))
    ensures ApplyLine(st, Ip(addr)).Success?
    ensures ApplyLine(st, Ip(addr)).value.devices == st.devices + [Device(addr, 5, [])]
    ensures ApplyLine(ApplyLine(st, Ip(addr)).value, Hostname(hostname)) == Failure(WithoutPreset)
  {
  }

  /** A preset line fails without a device, with an undefined preset or an
      unknown function; otherwise it appends a copy of the first preset of
      that name, with the function set, to the current device. */
  lemma PresetLineEffect(st: ParseState, name: seq<byte>, funcName: seq<byte>)
    requires Good(st) && Tokenised(PresetLine(name, funcName))
    ensures !st.hasDevice ==> ApplyLine(st, PresetLine(name, funcName)) == Failure(PresetWithoutDevice)
    ensures st.hasDevice && FindPreset(st.presets, name).None? ==>
      ApplyLine(st, PresetLine(name, funcName)) == Failure(UndefinedPreset)
    ensures st.hasDevice && FindPreset(st.presets, name).Some? && funcName !in ScanFuncNames() ==>
      ApplyLine(st, PresetLine(name, funcName)) == Failure(InvalidFunc)
    ensures st.hasDevice && FindPreset(st.presets, name).Some? && funcName in ScanFuncNames() ==>
      var r := ApplyLine(st, PresetLine(name, funcName));
      var d := |st.devices| - 1;
      r.Success? && |r.value.devices| == |st.devices| &&
      r.value.devices[d].items ==
        st.devices[d].items + [st.presets[FindPreset(st.presets, name).value].(scanFunc := ScanFuncByName(funcName))] &&
      Current(r.value).hostname == name
  {
  }

  /** A scan.param line overwrites the value of the current item's first
      parameter with that id, and counts against the file-wide limit. */
  lemma ScanParamOverwrites(st: ParseState, id: byte, value: seq<byte>)
    requires Good(st) && Tokenised(ScanParamLine(id, value))
    requires st.cursor != NoItem && st.paramCount < MAX_PARAMS
    requires ParamIndex(Current(st).scanParams, id).Some?
    ensures var r := ApplyLine(st, ScanParamLine(id, value));
      var k := ParamIndex(Current(st).scanParams, id).value;
      r.Success? && r.value.paramCount == st.paramCount + 1 &&
      CStr(Current(r.value).scanParams[k].value) == value &&
      Current(r.value).scanParams[k].id == id &&
      |Current(r.value).scanParams| == |Current(st).scanParams| &&
      forall j :: 0 <= j < |Current(st).scanParams| && j != k ==>
        Current(r.value).scanParams[j] == Current(st).scanParams[j]
  {
  }

  /** The counter is never reset: once sixteen scan.param lines have been
      applied anywhere in the file, the next one fails. */
  lemma SeventeenthScanParam(st: ParseState, id: byte, value: seq<byte>)
    requires Good(st) && Tokenised(ScanParamLine(id, value))
    requires st.cursor != NoItem && st.paramCount == MAX_PARAMS
    ensures ApplyLine(st, ScanParamLine(id, value)) == Failure(TooManyParams)
  {
  }

  /** One line applied successfully hands the rest of the file to the new state. */
  lemma RunStep(st: ParseState, line: Line, rest: seq<Line>, next: ParseState)
    requires Good(st) && Tokenised(line) && forall k :: 0 <= k < |rest| ==> Tokenised(rest[k])
    requires ApplyLine(st, line) == Success(next)
    ensures RunLines(st, [line] + rest) == RunLines(next, rest)
  {
    assert ([line] + rest)[0] == line && ([line] + rest)[1..] == rest;
  }

  /** A line that fails ends the run with -1 and the devices read so far. */
  lemma RunFails(st: ParseState, line: Line, rest: seq<Line>)
    requires Good(st) && Tokenised(line) && forall k :: 0 <= k < |rest| ==> Tokenised(rest[k])
    requires ApplyLine(st, line).Failure?
    ensures RunLines(st, [line] + rest) == InitResult(-1, st.devices)
  {
    assert ([line] + rest)[0] == line;
  }

  /** Comments and blank lines change nothing. */
  lemma CommentSkipped(st: ParseState, rest: seq<Line>)
    requires Good(st)
    requires forall k :: 0 <= k < |rest| ==> Tokenised(rest[k])
    ensures RunLines(st, [Comment] + rest) == RunLines(st, rest)
  {
    assert ApplyLine(st, Comment) == Success(st);
    RunStep(st, Comment, rest, st);
  }

  /** An unrecognised line ends config_init with -1 and the devices read so far. */
  lemma UnrecognisedStops(st: ParseState, rest: seq<Line>)
    requires Good(st)
    requires forall k :: 0 <= k < |rest| ==> Tokenised(rest[k])
    ensures RunLines(st, [Unrecognised] + rest) == InitResult(-1, st.devices)
  {
    assert ApplyLine(st, Unrecognised).Failure?;
    RunFails(st, Unrecognised, rest);
  }

  /** Appending a preset under a new name makes it the one find_preset finds. */
  lemma FindAppended(presets: seq<Item>, p: Item)
    requires forall k :: 0 <= k < |presets| ==> presets[k].hostname != p.hostname
    ensures FindPreset(presets + [p], p.hostname) == Some(|presets|)
  {
    var r := FindPreset(presets + [p], p.hostname);
    assert (presets + [p])[|presets|] == p;
  }

  /** A define-preset line followed by a scan.param line: a new preset,
      copied from "default" under the new name, with the parameter changed,
      and the cursor on it. */
  lemma DefineThenParam(st: ParseState, name: seq<byte>, id: byte, value: seq<byte>)
    requires Good(st) && st.paramCount < MAX_PARAMS
    requires Tokenised(DefinePreset(name)) && Tokenised(ScanParamLine(id, value))
    requires ParamIndex(st.presets[0].scanParams, id).Some?
    requires forall k :: 0 <= k < |st.presets| ==> st.presets[k].hostname != name
    ensures var k := ParamIndex(st.presets[0].scanParams, id).value;
      var changed := SetParam(st.presets[0].(hostname := name), k, value);
      ApplyLine(st, DefinePreset(name)) == Success(DefinePresetStep(st, name)) &&
      ApplyLine(DefinePresetStep(st, name), ScanParamLine(id, value))
        == Success(st.(presets := st.presets + [changed], cursor := PresetAt(|st.presets|),
                       paramCount := st.paramCount + 1)) &&
      FindPreset(st.presets + [changed], name) == Some(|st.presets|)
  {
    var s1 := DefinePresetStep(st, name);
    var changed := SetParam(st.presets[0].(hostname := name), ParamIndex(st.presets[0].scanParams, id).value, value);
    assert Current(s1) == st.presets[0].(hostname := name);
    assert s1.presets[|st.presets| := changed] == st.presets + [changed];
    FindAppended(st.presets, changed);
  }

  /** An ip line followed by a preset line naming an existing preset: a new
      device whose one item is a copy of that preset with the function set. */
  lemma IpThenPreset(st: ParseState, addr: seq<byte>, name: seq<byte>, func: seq<byte>)
    requires Good(st)
    requires Tokenised(Ip(addr)) && Tokenised(PresetLine(name, func))
    requires FindPreset(st.presets, name).Some? && func in ScanFuncNames()
    ensures var item := st.presets[FindPreset(st.presets, name).value].(scanFunc := ScanFuncByName(func));
      ApplyLine(st, Ip(addr)) == Success(IpStep(st, addr)) &&
      ApplyLine(IpStep(st, addr), PresetLine(name, func)) == Success(AddItem(IpStep(st, addr), item)) &&
      AddItem(IpStep(st, addr), item).devices == st.devices + [Device(addr, DEFAULT_TIMEOUT_SEC, [item])]
  {
    var item := st.presets[FindPreset(st.presets, name).value].(scanFunc := ScanFuncByName(func));
    assert AddItem(IpStep(st, addr), item).devices[|st.devices|] == Device(addr, DEFAULT_TIMEOUT_SEC, [item]);
  }
}
