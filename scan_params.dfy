// The scan parameters of the data channel (data_channel.c): the sixteen
// slots, the `id=value\n` records read_scan_params parses into them and
// write_scan_params prints from them, and the round trip between the two.

module ScanParams {

  import opened Bytes
  import opened Config

  const NL: byte := 0x0a
  const EQ: byte := 0x3d  // '='
  const COMMA: byte := 0x2c  // ','
  const ZERO_DIGIT: byte := 0x30  // '0'

  /** The whitelists the channel sends with: "RMD" and "RMCJBNADGL". */
  const RMD: seq<byte> := [82, 77, 68]
  const RMCJBNADGL: seq<byte> := [82, 77, 67, 74, 66, 78, 65, 68, 71, 76]

  // ---------------------------------------------------------------------
  // Scan parameters.

  /** Two parameter arrays that differ at most in their values. */
  predicate SameIds(a: seq<ScanParam>, b: seq<ScanParam>)
  {
    |a| == |b| && forall k :: 0 <= k < |a| ==> a[k].id == b[k].id
  }

  /** get_scan_param_by_id only looks at the ids. */
  lemma {:induction false} ParamIndexSameIds(a: seq<ScanParam>, b: seq<ScanParam>, id: byte)
    requires SameIds(a, b)
    ensures ParamIndex(a, id) == ParamIndex(b, id)
  {
    if a != [] {
      assert SameIds(a[1..], b[1..]);
      ParamIndexSameIds(a[1..], b[1..], id);
    }
  }

  /** A new value for slot k; the ids stay as they were. */
  function SetValue(params: seq<ScanParam>, k: nat, value: seq<byte>): (r: seq<ScanParam>)
    requires ParamsShape(params) && k < MAX_PARAMS && |value| == VALUE_SIZE
    ensures ParamsShape(r) && SameIds(r, params)
    ensures r[k].value == value && forall j :: 0 <= j < MAX_PARAMS && j != k ==> r[j] == params[j]
  {
    params[k := params[k].(value := value)]
  }

  /** strchr(whitelist, id) != NULL, or no whitelist at all. strchr also
      finds the whitelist's own terminator, so id 0 always passes. */
  predicate Allowed(whitelist: Option<seq<byte>>, id: byte)
  {
    whitelist.None? || id in whitelist.value || id == 0
  }

  /** The index of the first 0x0a at or after i (|s| if there is none). */
  function LineEnd(s: seq<byte>, i: nat): (e: nat)
    requires i <= |s|
    ensures i <= e <= |s|
    ensures e < |s| ==> s[e] == NL
    ensures i < |s| && s[|s| - 1] == NL ==> e < |s|
    decreases |s| - i
  {
    if i == |s| || s[i] == NL then i else LineEnd(s, i + 1)
  }

  /** The line end comes no later than any 0x0a. */
  lemma {:induction false} LineEndBefore(s: seq<byte>, i: nat, j: nat)
    requires i <= j < |s| && s[j] == NL
    ensures LineEnd(s, i) <= j
    decreases j - i
  {
    if i < j && s[i] != NL {
      LineEndBefore(s, i + 1, j);
    }
  }

  /** The line end is the first 0x0a. */
  lemma {:induction false} LineEndAt(s: seq<byte>, i: nat, e: nat)
    requires i <= e < |s| && s[e] == NL
    requires forall j :: i <= j < e ==> s[j] != NL
    ensures LineEnd(s, i) == e
    decreases e - i
  {
    if i < e {
      LineEndAt(s, i + 1, e);
    }
  }

  /** What read_scan_params leaves behind: whether it succeeded, and the
      parameters as it left them (a failure keeps the records before it). */
  datatype Parsed = Parsed(ok: bool, params: seq<ScanParam>)

  /** One record of read_scan_params: the walk ends (Done) or goes on with
      the record that starts at index `at` (Next). */
  datatype Step =
    | Done(ok: bool, params: seq<ScanParam>)
    | Next(params: seq<ScanParam>, at: nat)

  /** The record at index i of s, where s runs up to the end pointer and
      ends with the 0x0a that stops the walk of the last value. A record is
      an id byte, '=', and the value up to 0x0a; the walk stops with
      success once fewer than two bytes are left. The value is written into
      the id's slot and terminated, or the slot is emptied when the
      whitelist excludes the id; an unknown id, a missing '=' and a value
      of 15 bytes or more are errors. */
  function ReadStep(params: seq<ScanParam>, s: seq<byte>, i: nat, whitelist: Option<seq<byte>>): (r: Step)
    requires ParamsShape(params) && i <= |s|
    requires s == [] || s[|s| - 1] == NL
    ensures ParamsShape(r.params) && SameIds(r.params, params)
    ensures r.Next? ==> i < r.at <= |s|
  {
    if i + 1 >= |s| then Done(true, params)
    else if s[i + 1] != EQ then Done(false, params)
    else match ParamIndex(params, s[i])
      case None => Done(false, params)
      case Some(k) =>
        var e := LineEnd(s, i + 2);
        var slot := params[k].value;
        if !Allowed(whitelist, s[i]) then
          Next(SetValue(params, k, StrCpy(slot, [])), e + 1)
        else if e - (i + 2) >= VALUE_SIZE - 1 then
          Done(false, SetValue(params, k, s[i + 2..i + VALUE_SIZE + 1] + slot[VALUE_SIZE - 1..]))
        else
          Next(SetValue(params, k, StrCpy(slot, s[i + 2..e])), e + 1)
  }

  /** read_scan_params from index i of s: one record after another. */
  function ReadFrom(params: seq<ScanParam>, s: seq<byte>, i: nat, whitelist: Option<seq<byte>>): (r: Parsed)
    requires ParamsShape(params) && i <= |s|
    requires s == [] || s[|s| - 1] == NL
    ensures ParamsShape(r.params) && SameIds(r.params, params)
    decreases |s| - i
  {
    match ReadStep(params, s, i, whitelist)
      case Done(ok, p) => Parsed(ok, p)
      case Next(p, j) => ReadFrom(p, s, j, whitelist)
  }

  /** A record that lets the walk go on. */
  lemma ReadFromNext(params: seq<ScanParam>, params': seq<ScanParam>, s: seq<byte>, i: nat, j: nat, whitelist: Option<seq<byte>>)
    requires ParamsShape(params) && i <= |s| && (s == [] || s[|s| - 1] == NL)
    requires ReadStep(params, s, i, whitelist) == Next(params', j)
    ensures ReadFrom(params, s, i, whitelist) == ReadFrom(params', s, j, whitelist)
  {
  }

  /** read_scan_params over all of s. */
  function ReadRecords(params: seq<ScanParam>, s: seq<byte>, whitelist: Option<seq<byte>>): (r: Parsed)
    requires ParamsShape(params)
    requires s == [] || s[|s| - 1] == NL
    ensures ParamsShape(r.params) && SameIds(r.params, params)
  {
    ReadFrom(params, s, 0, whitelist)
  }

  /** s holds the record `id=v\n` at index i. */
  predicate RecordAt(s: seq<byte>, i: nat, id: byte, v: seq<byte>)
  {
    i + |v| + 2 < |s| && s[i] == id && s[i + 1] == EQ && s[i + 2..i + |v| + 2] == v && s[i + |v| + 2] == NL
  }

  /** One record: an unknown id fails; a whitelisted value of 15 bytes or
      more fails; otherwise the value lands in the id's slot as a C string,
      or the slot is emptied when the whitelist excludes the id, and the
      walk goes on right after the record's 0x0a. */
  lemma ReadOneRecord(params: seq<ScanParam>, s: seq<byte>, i: nat, id: byte, v: seq<byte>, whitelist: Option<seq<byte>>)
    requires ParamsShape(params) && RecordAt(s, i, id, v) && s[|s| - 1] == NL
    requires NL !in v && 0 !in v
    ensures ParamIndex(params, id).None? ==> ReadStep(params, s, i, whitelist) == Done(false, params)
    ensures ParamIndex(params, id).Some? && Allowed(whitelist, id) && |v| >= VALUE_SIZE - 1 ==>
      ReadStep(params, s, i, whitelist).Done? && !ReadStep(params, s, i, whitelist).ok
    ensures ParamIndex(params, id).Some? && Allowed(whitelist, id) && |v| < VALUE_SIZE - 1 ==>
      var k := ParamIndex(params, id).value;
      var stored := StrCpy(params[k].value, v);
      CStr(stored) == v && ReadStep(params, s, i, whitelist) == Next(SetValue(params, k, stored), i + |v| + 3)
    ensures ParamIndex(params, id).Some? && !Allowed(whitelist, id) ==>
      var k := ParamIndex(params, id).value;
      var stored := StrCpy(params[k].value, []);
      CStr(stored) == [] && ReadStep(params, s, i, whitelist) == Next(SetValue(params, k, stored), i + |v| + 3)
  {
    var e := i + |v| + 2;
    forall j | i + 2 <= j < e
      ensures s[j] != NL
    {
      assert s[j] == s[i + 2..e][j - i - 2];
    }
    LineEndAt(s, i + 2, e);
  }

  /** Whether write_scan_params emits a record for p: a non-empty value and
      an id the whitelist lets through. */
  predicate Emitted(p: ScanParam, whitelist: Option<seq<byte>>)
  {
    CStr(p.value) != [] && Allowed(whitelist, p.id)
  }

  /** The `id=value\n` record of one parameter. */
  function Record(p: ScanParam): (r: seq<byte>)
    ensures |r| == |CStr(p.value)| + 3
  {
    [p.id, EQ] + CStr(p.value) + [NL]
  }

  /** write_scan_params from slot k on: the records of the emitted
      parameters, in slot order. */
  function WriteFrom(params: seq<ScanParam>, k: nat, whitelist: Option<seq<byte>>): (r: seq<byte>)
    decreases |params| - k
  {
    if k >= |params| then []
    else (if Emitted(params[k], whitelist) then Record(params[k]) else []) + WriteFrom(params, k + 1, whitelist)
  }

  /** What write_scan_params writes ends with the 0x0a of its last record. */
  lemma {:induction false} WriteFromEnds(params: seq<ScanParam>, k: nat, whitelist: Option<seq<byte>>)
    ensures var r := WriteFrom(params, k, whitelist); r == [] || r[|r| - 1] == NL
    decreases |params| - k
  {
    if k < |params| {
      WriteFromEnds(params, k + 1, whitelist);
    }
  }

  /** write_scan_params writes nothing exactly when no parameter from slot
      k on is emitted. */
  lemma {:induction false} WriteFromEmpty(params: seq<ScanParam>, k: nat, whitelist: Option<seq<byte>>)
    ensures WriteFrom(params, k, whitelist) == [] <==> forall j :: k <= j < |params| ==> !Emitted(params[j], whitelist)
    decreases |params| - k
  {
    if k < |params| {
      WriteFromEmpty(params, k + 1, whitelist);
    }
  }

  /** A value that survives a trip through a record: shorter than 15 bytes
      and free of 0x0a. */
  predicate PortableValue(v: seq<byte>)
  {
    |CStr(v)| < VALUE_SIZE - 1 && NL !in CStr(v)
  }

  predicate Portable(params: seq<ScanParam>)
  {
    forall k {:trigger PortableValue(params[k].value)} :: 0 <= k < |params| ==> PortableValue(params[k].value)
  }

  /** The parameters q after receiving the emitted values of p from slot k
      on, each into its own slot. */
  function Merge(q: seq<ScanParam>, p: seq<ScanParam>, k: nat, whitelist: Option<seq<byte>>): (r: seq<ScanParam>)
    requires ParamsShape(q) && ParamsShape(p) && Portable(p)
    ensures ParamsShape(r) && SameIds(r, q)
    decreases MAX_PARAMS - k
  {
    if k >= MAX_PARAMS then q
    else if Emitted(p[k], whitelist) then
      assert PortableValue(p[k].value);
      Merge(SetValue(q, k, StrCpy(q[k].value, CStr(p[k].value))), p, k + 1, whitelist)
    else Merge(q, p, k + 1, whitelist)
  }

  lemma MergeEmitted(q: seq<ScanParam>, p: seq<ScanParam>, k: nat, whitelist: Option<seq<byte>>)
    requires ParamsShape(q) && ParamsShape(p) && Portable(p) && k < MAX_PARAMS && Emitted(p[k], whitelist)
    requires PortableValue(p[k].value)
    ensures Merge(q, p, k, whitelist) == Merge(SetValue(q, k, StrCpy(q[k].value, CStr(p[k].value))), p, k + 1, whitelist)
  {
  }

  lemma {:induction false} MergeAt(q: seq<ScanParam>, p: seq<ScanParam>, k: nat, whitelist: Option<seq<byte>>, j: nat)
    requires ParamsShape(q) && ParamsShape(p) && Portable(p) && j < MAX_PARAMS && PortableValue(p[j].value)
    ensures Merge(q, p, k, whitelist)[j] ==
      if k <= j && Emitted(p[j], whitelist) then q[j].(value := StrCpy(q[j].value, CStr(p[j].value))) else q[j]
    decreases MAX_PARAMS - k
  {
    if k < MAX_PARAMS {
      if Emitted(p[k], whitelist) {
        assert PortableValue(p[k].value);
        var q' := SetValue(q, k, StrCpy(q[k].value, CStr(p[k].value)));
        MergeEmitted(q, p, k, whitelist);
        MergeAt(q', p, k + 1, whitelist, j);
        assert q'[j] == if j == k then q[j].(value := StrCpy(q[j].value, CStr(p[j].value))) else q[j];
      } else {
        assert Merge(q, p, k, whitelist) == Merge(q, p, k + 1, whitelist);
        MergeAt(q, p, k + 1, whitelist, j);
      }
    }
  }

  /** A record at the head of a suffix of s. */
  lemma RecordAtSuffix(s: seq<byte>, o: nat, id: byte, v: seq<byte>, rec: seq<byte>, rest: seq<byte>)
    requires rec == [id, EQ] + v + [NL]
    requires o <= |s| && s[o..] == rec + rest
    ensures RecordAt(s, o, id, v)
  {
    var t := s[o..];
    assert t[0] == id && t[1] == EQ && t[|v| + 2] == NL;
    assert s[o] == t[0] && s[o + 1] == t[1] && s[o + |v| + 2] == t[|v| + 2];
    assert t[2..|v| + 2] == v;
    assert s[o + 2..o + |v| + 2] == t[2..|v| + 2];
  }

  lemma IndexKept(q: seq<ScanParam>, q': seq<ScanParam>, p: seq<ScanParam>, k: nat, whitelist: Option<seq<byte>>)
    requires SameIds(q, q') && |p| == MAX_PARAMS && IndexedFrom(q, p, k, whitelist)
    ensures IndexedFrom(q', p, k, whitelist)
  {
    forall j | k <= j < MAX_PARAMS && Emitted(p[j], whitelist)
      ensures ParamIndex(q', p[j].id) == Some(j)
    {
      ParamIndexSameIds(q', q, p[j].id);
    }
  }

  /** The stream s ends in a newline and, from index o on, holds the
      records of slots k on followed by that newline. */
  ghost predicate WrittenAt(s: seq<byte>, o: nat, p: seq<ScanParam>, k: nat, whitelist: Option<seq<byte>>)
  {
    0 < |s| && s[|s| - 1] == NL && o <= |s| && s[o..] == WriteFrom(p, k, whitelist) + [NL]
  }

  /** Every id emitted from slot k on is found by the reader in its own slot. */
  ghost predicate IndexedFrom(q: seq<ScanParam>, p: seq<ScanParam>, k: nat, whitelist: Option<seq<byte>>)
    requires |p| == MAX_PARAMS
  {
    forall j :: k <= j < MAX_PARAMS && Emitted(p[j], whitelist) ==> ParamIndex(q, p[j].id) == Some(j)
  }

  /** One emitted record of the trip, found at index o of the stream s: it
      lands in slot k, and the walk goes on at the records of the slots
      after k. */
  lemma ReadWriteStep(q: seq<ScanParam>, p: seq<ScanParam>, k: nat, whitelist: Option<seq<byte>>, s: seq<byte>, o: nat)
    returns (q': seq<ScanParam>, o': nat)
    requires ParamsShape(q) && ParamsShape(p) && k < MAX_PARAMS
    requires Emitted(p[k], whitelist) && ParamIndex(q, p[k].id) == Some(k) && PortableValue(p[k].value)
    requires WrittenAt(s, o, p, k, whitelist)
    ensures q' == SetValue(q, k, StrCpy(q[k].value, CStr(p[k].value)))
    ensures o < o' && WrittenAt(s, o', p, k + 1, whitelist)
    ensures ReadStep(q, s, o, None) == Next(q', o')
  {
    EmittedAt(p, k, whitelist, s, o);
    ReadOneRecord(q, s, o, p[k].id, CStr(p[k].value), None);
    q' := SetValue(q, k, StrCpy(q[k].value, CStr(p[k].value)));
    o' := o + |Record(p[k])|;
  }

  /** Where the records of slots k on begin, an emitted slot k puts its
      record, and the records of the slots after it follow. */
  lemma EmittedAt(p: seq<ScanParam>, k: nat, whitelist: Option<seq<byte>>, s: seq<byte>, o: nat)
    requires |p| == MAX_PARAMS && k < MAX_PARAMS && Emitted(p[k], whitelist)
    requires WrittenAt(s, o, p, k, whitelist)
    ensures RecordAt(s, o, p[k].id, CStr(p[k].value))
    ensures WrittenAt(s, o + |Record(p[k])|, p, k + 1, whitelist)
  {
    WriteEmit(p, k, whitelist);
    var rec := Record(p[k]);
    var rest := WriteFrom(p, k + 1, whitelist) + [NL];
    assert WriteFrom(p, k, whitelist) + [NL] == rec + rest;
    assert s[o..] == rec + rest;
    RecordAtSuffix(s, o, p[k].id, CStr(p[k].value), rec, rest);
    assert o + |rec| <= |s| && s[o + |rec|..] == s[o..][|rec|..] == rest;
  }

  /** The end of a written stream: the lone terminating newline reads as success. */
  lemma ReadWriteEnd(q: seq<ScanParam>, p: seq<ScanParam>, whitelist: Option<seq<byte>>, s: seq<byte>, o: nat)
    requires ParamsShape(q) && |p| == MAX_PARAMS && WrittenAt(s, o, p, MAX_PARAMS, whitelist)
    ensures ReadFrom(q, s, o, None) == Parsed(true, q)
  {
    assert |s[o..]| == 1;
    assert ReadStep(q, s, o, None) == Done(true, q);
  }

  /** One emitted record read back: the reader moves past it, having stored
      the value the merge stores. */
  lemma ReadWriteEmitted(q: seq<ScanParam>, p: seq<ScanParam>, k: nat, whitelist: Option<seq<byte>>, s: seq<byte>, o: nat)
    returns (q': seq<ScanParam>, o': nat)
    requires ParamsShape(q) && ParamsShape(p) && Portable(p) && k < MAX_PARAMS && Emitted(p[k], whitelist)
    requires ParamIndex(q, p[k].id) == Some(k) && WrittenAt(s, o, p, k, whitelist) && PortableValue(p[k].value)
    ensures q' == SetValue(q, k, StrCpy(q[k].value, CStr(p[k].value)))
    ensures WrittenAt(s, o', p, k + 1, whitelist)
    ensures ReadFrom(q, s, o, None) == ReadFrom(q', s, o', None)
  {
    q', o' := ReadWriteStep(q, p, k, whitelist, s, o);
    ReadFromNext(q, q', s, o, o', None);
  }

  /** The merge side of one emitted record: storing its value in slot k is
      the merge's first step and keeps every id in its slot. */
  lemma MergeStep(q: seq<ScanParam>, q': seq<ScanParam>, p: seq<ScanParam>, k: nat, whitelist: Option<seq<byte>>)
    requires ParamsShape(q) && ParamsShape(p) && Portable(p) && k < MAX_PARAMS && Emitted(p[k], whitelist)
    requires IndexedFrom(q, p, k, whitelist) && PortableValue(p[k].value)
    requires q' == SetValue(q, k, StrCpy(q[k].value, CStr(p[k].value)))
    ensures IndexedFrom(q', p, k + 1, whitelist)
    ensures Merge(q, p, k, whitelist) == Merge(q', p, k + 1, whitelist)
  {
    MergeEmitted(q, p, k, whitelist);
    IndexKept(q, q', p, k + 1, whitelist);
  }

  lemma {:induction false} ReadWriteFrom(q: seq<ScanParam>, p: seq<ScanParam>, k: nat, whitelist: Option<seq<byte>>, s: seq<byte>, o: nat)
    requires ParamsShape(q) && ParamsShape(p) && Portable(p) && k <= MAX_PARAMS
    requires IndexedFrom(q, p, k, whitelist) && WrittenAt(s, o, p, k, whitelist)
    ensures ReadFrom(q, s, o, None) == Parsed(true, Merge(q, p, k, whitelist))
    decreases MAX_PARAMS - k
  {
    if k == MAX_PARAMS {
      ReadWriteEnd(q, p, whitelist, s, o);
    } else if !Emitted(p[k], whitelist) {
      WriteSkip(p, k, whitelist);
      ReadWriteFrom(q, p, k + 1, whitelist, s, o);
    } else {
      assert PortableValue(p[k].value);
      var q', o' := ReadWriteEmitted(q, p, k, whitelist, s, o);
      MergeStep(q, q', p, k, whitelist);
      ReadWriteFrom(q', p, k + 1, whitelist, s, o');
    }
  }

  /** Records written by write_scan_params read back by read_scan_params:
      every emitted value arrives in its own slot, as the same C string,
      and every other slot is left as it was. */
  lemma ReadWriteRoundTrip(q: seq<ScanParam>, p: seq<ScanParam>, whitelist: Option<seq<byte>>)
    requires ParamsShape(q) && ParamsShape(p) && Portable(p)
    requires forall j :: 0 <= j < MAX_PARAMS && Emitted(p[j], whitelist) ==> ParamIndex(q, p[j].id) == Some(j)
    ensures ReadRecords(q, WriteFrom(p, 0, whitelist) + [NL], None).ok
    ensures forall j :: 0 <= j < MAX_PARAMS ==>
      var r := ReadRecords(q, WriteFrom(p, 0, whitelist) + [NL], None).params;
      (Emitted(p[j], whitelist) ==> CStr(r[j].value) == CStr(p[j].value)) &&
      (!Emitted(p[j], whitelist) ==> r[j] == q[j])
  {
    ReadWriteFrom(q, p, 0, whitelist, WriteFrom(p, 0, whitelist) + [NL], 0);
    forall j | 0 <= j < MAX_PARAMS
      ensures var r := Merge(q, p, 0, whitelist);
        (Emitted(p[j], whitelist) ==> CStr(r[j].value) == CStr(p[j].value)) &&
        (!Emitted(p[j], whitelist) ==> r[j] == q[j])
    {
      assert PortableValue(p[j].value);
      MergeAt(q, p, 0, whitelist, j);
      assert 0 !in CStr(p[j].value);
    }
  }

  lemma WriteSkip(p: seq<ScanParam>, k: nat, whitelist: Option<seq<byte>>)
    requires k < |p| && !Emitted(p[k], whitelist)
    ensures WriteFrom(p, k, whitelist) == WriteFrom(p, k + 1, whitelist)
  {
  }

  lemma WriteEmit(p: seq<ScanParam>, k: nat, whitelist: Option<seq<byte>>)
    requires k < |p| && Emitted(p[k], whitelist)
    ensures WriteFrom(p, k, whitelist) == Record(p[k]) + WriteFrom(p, k + 1, whitelist)
  {
  }

  /** Parameters with the default ids, non-empty D, M and R and empty
      spare slots. */
  predicate DefaultShaped(p: seq<ScanParam>)
  {
    ParamsShape(p) && (forall k :: 0 <= k < MAX_PARAMS ==> p[k].id == DEFAULT_IDS[k]) &&
    CStr(p[3].value) != [] && CStr(p[9].value) != [] && CStr(p[12].value) != [] &&
    CStr(p[14].value) == [] && CStr(p[15].value) == []
  }

  /** Which of those the "RMD" whitelist lets out: D, M and R. */
  lemma EmittedRMD(p: seq<ScanParam>)
    requires DefaultShaped(p)
    ensures Emitted(p[3], Some(RMD)) && Emitted(p[9], Some(RMD)) && Emitted(p[12], Some(RMD))
    ensures forall k :: 0 <= k < MAX_PARAMS && k != 3 && k != 9 && k != 12 ==> !Emitted(p[k], Some(RMD))
  {
    forall k | 0 <= k < MAX_PARAMS && k != 3 && k != 9 && k != 12
      ensures !Emitted(p[k], Some(RMD))
    {
      assert p[k].id == DEFAULT_IDS[k];
      if k < 14 {
        assert p[k].id !in RMD && p[k].id != 0;
      }
    }
  }

  /** One emitted record appended to the output of the slots before k. */
  lemma AppendRecordStep(out: seq<byte>, p: seq<ScanParam>, k: nat, whitelist: Option<seq<byte>>)
    requires k < |p| && Emitted(p[k], whitelist)
    ensures out + WriteFrom(p, k, whitelist) == (out + ([p[k].id, EQ] + CStr(p[k].value) + [NL])) + WriteFrom(p, k + 1, whitelist)
  {
    WriteEmit(p, k, whitelist);
  }

  /** With the "RMD" whitelist only D, M and R go out. */
  lemma RecordsRMD(p: seq<ScanParam>)
    requires DefaultShaped(p)
    ensures WriteFrom(p, 0, Some(RMD)) == Record(p[3]) + (Record(p[9]) + Record(p[12]))
  {
    var w := Some(RMD);
    EmittedRMD(p);
    var k := 16;
    var tail: seq<byte> := [];
    while k > 0
      invariant 0 <= k <= 16 && WriteFrom(p, k, w) == tail
      invariant tail == if k > 12 then [] else if k > 9 then Record(p[12])
        else if k > 3 then Record(p[9]) + Record(p[12])
        else Record(p[3]) + (Record(p[9]) + Record(p[12]))
    {
      k := k - 1;
      if k == 3 || k == 9 || k == 12 {
        WriteEmit(p, k, w);
        tail := Record(p[k]) + tail;
      } else {
        WriteSkip(p, k, w);
      }
    }
  }

  /** The default parameters with the "RMD" whitelist go out as
      `D=SIN\nM=CGRAY\nR=300,300\n`. */
  lemma DefaultRecordsRMD()
    ensures WriteFrom(DefaultParams(), 0, Some(RMD)) ==
      ([68, EQ] + SIN + [NL]) + (([77, EQ] + CGRAY + [NL]) + ([82, EQ] + RES_300 + [NL]))
  {
    var p := DefaultParams();
    DefaultPresetValues();
    assert DefaultShaped(p);
    RecordsRMD(p);
    assert Record(p[3]) == [68, EQ] + SIN + [NL];
    assert Record(p[9]) == [77, EQ] + CGRAY + [NL];
    assert Record(p[12]) == [82, EQ] + RES_300 + [NL];
  }

  /** What CopyValue leaves behind is exactly one step of ReadStep. */
  lemma ReadStepCopied(params: seq<ScanParam>, s: seq<byte>, pos: nat, k: nat, whitelist: Option<seq<byte>>,
                       overflow: bool, slot: seq<byte>, q: nat)
    requires ParamsShape(params) && pos + 1 < |s| && s[|s| - 1] == NL && s[pos + 1] == EQ
    requires ParamIndex(params, s[pos]) == Some(k)
    requires overflow <==> Allowed(whitelist, s[pos]) && LineEnd(s, pos + 2) - (pos + 2) >= VALUE_SIZE - 1
    requires overflow ==> slot == s[pos + 2..pos + VALUE_SIZE + 1] + params[k].value[VALUE_SIZE - 1..]
    requires !overflow ==> q == LineEnd(s, pos + 2)
    requires !overflow ==> slot == StrCpy(params[k].value, if Allowed(whitelist, s[pos]) then s[pos + 2..q] else [])
    ensures overflow ==> ReadStep(params, s, pos, whitelist) == Done(false, SetValue(params, k, slot))
    ensures !overflow ==> ReadStep(params, s, pos, whitelist) == Next(SetValue(params, k, slot), q + 1)
  {
  }

  /** The inner walk of read_scan_params for the record at s[pos]: copy
      the value byte by byte into slot k until 0x0a, failing once 15
      bytes are in. */
  method ReadValue(params: seq<ScanParam>, s: seq<byte>, pos: nat, k: nat, whitelist: Option<seq<byte>>)
    returns (rc: int, next: nat, params': seq<ScanParam>)
    requires ParamsShape(params) && pos + 1 < |s| && s[|s| - 1] == NL && s[pos + 1] == EQ
    requires ParamIndex(params, s[pos]) == Some(k)
    ensures ParamsShape(params') && pos < next <= |s|
    ensures rc == 0 ==> ReadStep(params, s, pos, whitelist) == Next(params', next)
    ensures rc != 0 ==> ReadStep(params, s, pos, whitelist) == Done(false, params')
  {
    var overflow, slot, q := CopyValue(s, pos + 2, params[k].value, Allowed(whitelist, s[pos]));
    ReadStepCopied(params, s, pos, k, whitelist, overflow, slot, q);
    params' := SetValue(params, k, slot);
    rc, next := if overflow then -1 else 0, q + 1;
  }

  /** The byte loop of read_scan_params for one value starting at
      s[start]: up to the first 0x0a, each byte goes into the slot when the
      id is allowed; the walk stops with an overflow once 15 are in, and
      otherwise the slot is terminated at the 0x0a. */
  method CopyValue(s: seq<byte>, start: nat, slot0: seq<byte>, allowed: bool) returns (overflow: bool, slot: seq<byte>, q: nat)
    requires start <= |s| && LineEnd(s, start) < |s| && |slot0| == VALUE_SIZE
    ensures overflow <==> allowed && LineEnd(s, start) - start >= VALUE_SIZE - 1
    ensures overflow ==> q == start + VALUE_SIZE - 2 && slot == s[start..start + VALUE_SIZE - 1] + slot0[VALUE_SIZE - 1..]
    ensures !overflow ==> q == LineEnd(s, start) && slot == StrCpy(slot0, if allowed then s[start..q] else [])
  {
    ghost var e := LineEnd(s, start);
    slot := slot0;
    var i := 0;
    q := start;
    while s[q] != NL
      invariant start <= q <= e && |slot| == VALUE_SIZE
      invariant i == if allowed then q - start else 0
      invariant i < VALUE_SIZE - 1
      invariant forall j :: 0 <= j < i ==> slot[j] == s[start + j]
      invariant forall j :: i <= j < VALUE_SIZE ==> slot[j] == slot0[j]
      decreases e - q
    {
      if allowed {
        slot := slot[i := s[q]];
        i := i + 1;
      }
      if i >= VALUE_SIZE - 1 {
        assert slot == s[start..start + VALUE_SIZE - 1] + slot0[VALUE_SIZE - 1..];
        return true, slot, q;
      }
      q := q + 1;
    }
    LineEndBefore(s, start, q);
    slot := slot[i := 0];
    assert slot == (if allowed then s[start..q] else []) + [0] + slot0[i + 1..];
    overflow := false;
  }
}
