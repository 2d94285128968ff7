/** The track decoder: recovers the sector map of one raw MFM track by
    scanning for address marks (the scan loop of `read_track`,
    src/ftdos.py:155-193).

    The scan walks a cursor over a window of TRACK_SIZE positions whatever
    the number of bytes actually read; a read at or past the end of the
    buffer is the IndexError of the original, here `IndexOutOfRange`. */
module TrackScan {
  import opened Common

  const TRACK_SIZE: nat := 6400
  const ID_MARK: byte := 0xFE
  const DATA_MARK: byte := 0xFB

  /** Where a sector's ID field and data field start; `dataPtr` is `None`
      when the track ended before any data mark (the original's -1). */
  datatype Sector = Sector(idPtr: nat, dataPtr: Option<nat>)

  /** One ID mark as the scan met it: the sector number and size code it
      announces and the positions recorded for it. */
  datatype IdRecord = IdRecord(number: byte, sizeCode: byte, at: Sector)

  type SectorMap = map<byte, Sector>

  /** How far the cursor moves from a data mark: `(1 << (n + 7)) + 3`,
      past `128 << n` data bytes and the trailing check bytes. */
  function Jump(n: byte): nat {
    Pow2(n as nat + 7) + 3
  }

  predicate IsDataOrId(b: byte) {
    b == DATA_MARK || b == ID_MARK
  }

  /** The first position at or after `p` that holds an ID mark, or the
      first position at or past TRACK_SIZE when none comes first. */
  function SeekId(raw: seq<byte>, p: nat): (r: Result<nat>)
    decreases TRACK_SIZE - p
    ensures r.Ok? ==> p <= r.value && (r.value >= TRACK_SIZE ==> r.value == Max(p, TRACK_SIZE))
    ensures r.Ok? ==> r.value == p || r.value <= |raw|
    ensures r.Ok? && r.value < TRACK_SIZE ==> r.value < |raw| && raw[r.value] == ID_MARK
    ensures r.Ok? ==> forall k :: p <= k < r.value ==> raw[k] != ID_MARK
    ensures r.Err? ==> r.error == IndexOutOfRange(Max(p, |raw|)) && Max(p, |raw|) < TRACK_SIZE
    ensures r.Err? ==> forall k :: p <= k < |raw| ==> raw[k] != ID_MARK
  {
    if p >= TRACK_SIZE then Ok(p)
    else if p >= |raw| then Err(IndexOutOfRange(p))
    else if raw[p] == ID_MARK then Ok(p)
    else SeekId(raw, p + 1)
  }

  /** The first position at or after `p` that holds a data mark or an ID
      mark (either one ends the search), or the first position at or past
      TRACK_SIZE when none comes first. */
  function SeekData(raw: seq<byte>, p: nat): (r: Result<nat>)
    decreases TRACK_SIZE - p
    ensures r.Ok? ==> p <= r.value && (r.value >= TRACK_SIZE ==> r.value == Max(p, TRACK_SIZE))
    ensures r.Ok? ==> r.value == p || r.value <= |raw|
    ensures r.Ok? && r.value < TRACK_SIZE ==> r.value < |raw| && IsDataOrId(raw[r.value])
    ensures r.Ok? ==> forall k :: p <= k < r.value ==> !IsDataOrId(raw[k])
    ensures r.Err? ==> r.error == IndexOutOfRange(Max(p, |raw|)) && Max(p, |raw|) < TRACK_SIZE
  {
    if p >= TRACK_SIZE then Ok(p)
    else if p >= |raw| then Err(IndexOutOfRange(p))
    else if IsDataOrId(raw[p]) then Ok(p)
    else SeekData(raw, p + 1)
  }

  /** The ID marks the scan meets from cursor `p` on, in scan order. */
  function Marks(raw: seq<byte>, p: nat): Result<seq<IdRecord>>
    decreases TRACK_SIZE - p, 1
  {
    var q :- SeekId(raw, p);
    if q >= TRACK_SIZE then Ok([]) else MarksAt(raw, q)
  }

  /** The ID marks met from an ID mark at `q` on: this one, with its sector
      number at `q + 3` and size code at `q + 4`, then (when a data or ID
      mark follows before the end) those met past the jump over its data. */
  function MarksAt(raw: seq<byte>, q: nat): Result<seq<IdRecord>>
    requires q < TRACK_SIZE
    decreases TRACK_SIZE - q, 0
  {
    if q + 3 >= |raw| then Err(IndexOutOfRange(q + 3))
    else if q + 4 >= |raw| then Err(IndexOutOfRange(q + 4))
    else
      var d :- SeekData(raw, q + 7);
      var head := IdRecord(raw[q + 3], raw[q + 4], Sector(q, if d < TRACK_SIZE then Some(d) else None));
      if d >= TRACK_SIZE then Ok([head])
      else Prepend([head], Marks(raw, d + Jump(raw[q + 4])))
  }

  /** The sector map built from a list of ID marks, a later mark with the
      same sector number replacing the earlier entry. */
  function ToMap(trace: seq<IdRecord>): SectorMap
  {
    if trace == [] then map[]
    else
      var last := trace[|trace| - 1];
      ToMap(trace[..|trace| - 1])[last.number := last.at]
  }

  /** The scan as the original runs it, building the sector map as it
      goes: from cursor `p`, with the entries `m` recorded so far. */
  function ScanFrom(raw: seq<byte>, p: nat, m: SectorMap): Result<SectorMap>
    decreases TRACK_SIZE - p, 1
  {
    var q :- SeekId(raw, p);
    if q >= TRACK_SIZE then Ok(m) else ScanAt(raw, q, m)
  }

  /** The scan at an ID mark at `q`: one step, then the scan from where
      the step leaves the cursor. */
  function ScanAt(raw: seq<byte>, q: nat, m: SectorMap): Result<SectorMap>
    requires q < TRACK_SIZE
    decreases TRACK_SIZE - q, 0
  {
    var next :- Step(raw, q, m);
    ScanFrom(raw, next.1, next.0)
  }

  /** One step of the scan at an ID mark at `q`: the entry for the sector
      number at `q + 3` is recorded without a data field, the size code at
      `q + 4` is read, and the entry is completed when a data (or ID) mark
      comes before the end, the cursor moving past that mark's data; when
      no mark comes first the cursor stays at or past the end. */
  function Step(raw: seq<byte>, q: nat, m: SectorMap): (r: Result<(SectorMap, nat)>)
    requires q < TRACK_SIZE
    ensures r.Ok? ==> r.value.1 > q
  {
    if q + 3 >= |raw| then Err(IndexOutOfRange(q + 3))
    else
      var recorded := m[raw[q + 3] := Sector(q, None)];
      if q + 4 >= |raw| then Err(IndexOutOfRange(q + 4))
      else
        var d :- SeekData(raw, q + 7);
        if d >= TRACK_SIZE then Ok((recorded, d))
        else Ok((recorded[raw[q + 3] := Sector(q, Some(d))], d + Jump(raw[q + 4])))
  }

  /** The sector map of a raw track, or the read that failed. */
  function DecodeSpec(raw: seq<byte>): Result<SectorMap>
  {
    ScanFrom(raw, 0, map[])
  }

  /** The decoder as the original writes it: one cursor, an inner seek
      loop for each ID mark, then the entry for that mark (RecordSector). */
  method Decode(raw: seq<byte>) returns (r: Result<SectorMap>)
    ensures r == DecodeSpec(raw)
  {
    var sectors: SectorMap := map[];
    var ptr: nat := 0;
    while ptr < TRACK_SIZE
      invariant ScanFrom(raw, ptr, sectors) == DecodeSpec(raw)
      decreases TRACK_SIZE - ptr
    {
      ghost var from := ptr;
      ptr :- SkipToIdMark(raw, ptr);
      if ptr >= TRACK_SIZE {
        return Ok(sectors);  // the original breaks out of the scan and returns the map
      }
      assert ScanFrom(raw, from, sectors) == ScanAt(raw, ptr, sectors);
      var next :- RecordSector(raw, ptr, sectors);
      sectors, ptr := next.0, next.1;
    }
    return Ok(sectors);
  }

  /** The body of the scan loop once an ID mark is found at `q`: the entry
      is first recorded without a data field and completed when a data (or
      ID) mark is found; the cursor then jumps past the sector's data, or
      stays at the end of the track when no mark comes first. */
  method RecordSector(raw: seq<byte>, q: nat, sectors: SectorMap) returns (r: Result<(SectorMap, nat)>)
    requires q < TRACK_SIZE
    ensures r == Step(raw, q, sectors)
  {
    if q + 3 >= |raw| {
      return Err(IndexOutOfRange(q + 3));
    }
    var number := raw[q + 3];
    var recorded := sectors[number := Sector(q, None)];
    if q + 4 >= |raw| {
      return Err(IndexOutOfRange(q + 4));
    }
    var n := raw[q + 4];
    var ptr :- SkipToDataMark(raw, q + 7);
    if ptr >= TRACK_SIZE {
      return Ok((recorded, ptr));  // the original returns the map here
    }
    return Ok((recorded[number := Sector(q, Some(ptr))], ptr + Jump(n)));
  }

  /** The ways the scan at an ID mark at `q` fails: a short read of the
      sector number or the size code, or of the bytes before the data mark. */
  lemma ScanAtFails(raw: seq<byte>, q: nat, m: SectorMap)
    requires q < TRACK_SIZE
    ensures q + 3 >= |raw| ==> ScanAt(raw, q, m) == Err(IndexOutOfRange(q + 3))
    ensures q + 3 < |raw| <= q + 4 ==> ScanAt(raw, q, m) == Err(IndexOutOfRange(q + 4))
    ensures q + 4 < |raw| && SeekData(raw, q + 7).Err? ==> ScanAt(raw, q, m) == Err(SeekData(raw, q + 7).error)
  {
  }

  /** The scan once the data mark after the ID mark at `q` is found at
      `d`: the track ends there, or the entry is completed and the scan
      goes on past the sector's data. */
  lemma ScanAtData(raw: seq<byte>, q: nat, m: SectorMap, d: nat)
    requires q < TRACK_SIZE && q + 4 < |raw| && SeekData(raw, q + 7) == Ok(d)
    ensures d >= TRACK_SIZE ==> ScanAt(raw, q, m) == Ok(m[raw[q + 3] := Sector(q, None)])
    ensures d < TRACK_SIZE ==>
      ScanAt(raw, q, m)
        == ScanFrom(raw, d + Jump(raw[q + 4]), m[raw[q + 3] := Sector(q, None)][raw[q + 3] := Sector(q, Some(d))])
  {
  }

  /** The inner loop that advances the cursor to the next ID mark. */
  method SkipToIdMark(raw: seq<byte>, start: nat) returns (r: Result<nat>)
    ensures r == SeekId(raw, start)
  {
    var ptr := start;
    while ptr < TRACK_SIZE && (ptr >= |raw| || raw[ptr] != ID_MARK)
      invariant start <= ptr
      invariant SeekId(raw, start) == SeekId(raw, ptr)
      decreases TRACK_SIZE - ptr
    {
      if ptr >= |raw| {
        return Err(IndexOutOfRange(ptr));
      }
      ptr := ptr + 1;
    }
    return Ok(ptr);
  }

  /** The inner loop that advances the cursor to the next data or ID mark. */
  method SkipToDataMark(raw: seq<byte>, start: nat) returns (r: Result<nat>)
    ensures r == SeekData(raw, start)
  {
    var ptr := start;
    while ptr < TRACK_SIZE && (ptr >= |raw| || !IsDataOrId(raw[ptr]))
      invariant start <= ptr
      invariant SeekData(raw, start) == SeekData(raw, ptr)
      decreases TRACK_SIZE - ptr
    {
      if ptr >= |raw| {
        return Err(IndexOutOfRange(ptr));
      }
      ptr := ptr + 1;
    }
    return Ok(ptr);
  }

  /** The entries of `trace` set into `m` one after the other. */
  function Into(m: SectorMap, trace: seq<IdRecord>): SectorMap
    decreases |trace|
  {
    if trace == [] then m else Into(m[trace[0].number := trace[0].at], trace[1..])
  }

  /** Setting the entries one by one ends with the last mark's entry. */
  lemma {:induction false} IntoSnoc(m: SectorMap, trace: seq<IdRecord>, rec: IdRecord)
    ensures Into(m, trace + [rec]) == Into(m, trace)[rec.number := rec.at]
    decreases |trace|
  {
    if trace == [] {
      assert [] + [rec] == [rec];
      assert [rec][1..] == [];
    } else {
      assert (trace + [rec])[0] == trace[0];
      assert (trace + [rec])[1..] == trace[1..] + [rec];
      IntoSnoc(m[trace[0].number := trace[0].at], trace[1..], rec);
    }
  }

  /** The map of a trace is its entries set in order into the empty map. */
  lemma {:induction false} ToMapIsInto(trace: seq<IdRecord>)
    ensures ToMap(trace) == Into(map[], trace)
    decreases |trace|
  {
    if trace != [] {
      var init, last := trace[..|trace| - 1], trace[|trace| - 1];
      ToMapIsInto(init);
      IntoSnoc(map[], init, last);
      assert init + [last] == trace;
    }
  }

  /** The map-building scan and the trace of marks agree: the scan fails
      where the trace does, and otherwise sets the trace's entries in scan
      order over what it started with. */
  lemma {:induction false} ScanFollowsMarks(raw: seq<byte>, p: nat, m: SectorMap)
    ensures Marks(raw, p).Err? ==> ScanFrom(raw, p, m) == Err(Marks(raw, p).error)
    ensures Marks(raw, p).Ok? ==> ScanFrom(raw, p, m) == Ok(Into(m, Marks(raw, p).value))
    decreases TRACK_SIZE - p, 1
  {
    var q := SeekId(raw, p);
    if q.Ok? && q.value < TRACK_SIZE {
      ScanAtFollowsMarks(raw, q.value, m);
    }
  }

  /** The same agreement from an ID mark at `at`. */
  lemma {:induction false} ScanAtFollowsMarks(raw: seq<byte>, at: nat, m: SectorMap)
    requires at < TRACK_SIZE
    ensures MarksAt(raw, at).Err? ==> ScanAt(raw, at, m) == Err(MarksAt(raw, at).error)
    ensures MarksAt(raw, at).Ok? ==> ScanAt(raw, at, m) == Ok(Into(m, MarksAt(raw, at).value))
    decreases TRACK_SIZE - at, 0
  {
    ScanAtFails(raw, at, m);
    MarksAtFails(raw, at);
    if at + 4 < |raw| {
      var d := SeekData(raw, at + 7);
      if d.Ok? && d.value < TRACK_SIZE {
        var next, filled := d.value + Jump(raw[at + 4]), m[raw[at + 3] := Sector(at, Some(d.value))];
        ScanFollowsMarks(raw, next, filled);
        DataFollows(raw, at, m, d.value, next, filled);
      } else if d.Ok? {
        var head := IdRecord(raw[at + 3], raw[at + 4], Sector(at, None));
        MarksAtData(raw, at, d.value);
        IntoCons(m, head, []);
      }
    }
  }

  /** The step of ScanAtFollowsMarks past a sector's data: when the scan
      and the trace agree from the jump target on, they agree from the ID
      mark at `at`. */
  lemma DataFollows(raw: seq<byte>, at: nat, m: SectorMap, d: nat, next: nat, filled: SectorMap)
    requires at < TRACK_SIZE && at + 4 < |raw| && SeekData(raw, at + 7) == Ok(d) && d < TRACK_SIZE
    requires next == d + Jump(raw[at + 4]) && filled == m[raw[at + 3] := Sector(at, Some(d))]
    requires Marks(raw, next).Err? ==> ScanFrom(raw, next, filled) == Err(Marks(raw, next).error)
    requires Marks(raw, next).Ok? ==> ScanFrom(raw, next, filled) == Ok(Into(filled, Marks(raw, next).value))
    ensures MarksAt(raw, at).Err? ==> ScanAt(raw, at, m) == Err(MarksAt(raw, at).error)
    ensures MarksAt(raw, at).Ok? ==> ScanAt(raw, at, m) == Ok(Into(m, MarksAt(raw, at).value))
  {
    var head := IdRecord(raw[at + 3], raw[at + 4], Sector(at, Some(d)));
    ScanAtData(raw, at, m, d);
    MarksAtData(raw, at, d);
    assert filled == m[raw[at + 3] := Sector(at, None)][raw[at + 3] := head.at];
    if Marks(raw, next).Ok? {
      IntoCons(m, head, Marks(raw, next).value);
    }
  }

  /** The trace of marks fails from an ID mark at `q` where the scan does. */
  lemma MarksAtFails(raw: seq<byte>, q: nat)
    requires q < TRACK_SIZE
    ensures q + 3 >= |raw| ==> MarksAt(raw, q) == Err(IndexOutOfRange(q + 3))
    ensures q + 3 < |raw| <= q + 4 ==> MarksAt(raw, q) == Err(IndexOutOfRange(q + 4))
    ensures q + 4 < |raw| && SeekData(raw, q + 7).Err? ==> MarksAt(raw, q) == Err(SeekData(raw, q + 7).error)
  {
  }

  /** The marks met from an ID mark at `q` once the data mark after it
      is found at `d`. */
  lemma MarksAtData(raw: seq<byte>, q: nat, d: nat)
    requires q < TRACK_SIZE && q + 4 < |raw| && SeekData(raw, q + 7) == Ok(d)
    ensures d >= TRACK_SIZE ==> MarksAt(raw, q) == Ok([IdRecord(raw[q + 3], raw[q + 4], Sector(q, None))])
    ensures d < TRACK_SIZE ==>
      MarksAt(raw, q) == Prepend([IdRecord(raw[q + 3], raw[q + 4], Sector(q, Some(d)))], Marks(raw, d + Jump(raw[q + 4])))
  {
  }

  /** Setting a trace that starts with `head`. */
  lemma IntoCons(m: SectorMap, head: IdRecord, rest: seq<IdRecord>)
    ensures Into(m, [head] + rest) == Into(m[head.number := head.at], rest)
  {
    assert ([head] + rest)[0] == head && ([head] + rest)[1..] == rest;
  }

  /** The decoder's map is the map of the marks it meets, a later mark
      with the same sector number replacing the earlier entry, and it
      fails exactly where the trace of marks does. */
  lemma DecodeKeepsLastMarks(raw: seq<byte>)
    ensures Marks(raw, 0).Err? ==> DecodeSpec(raw) == Err(Marks(raw, 0).error)
    ensures Marks(raw, 0).Ok? ==> DecodeSpec(raw) == Ok(ToMap(Marks(raw, 0).value))
  {
    ScanFollowsMarks(raw, 0, map[]);
    if Marks(raw, 0).Ok? {
      ToMapIsInto(Marks(raw, 0).value);
    }
  }

  /** What the scan guarantees of the entry it keeps for sector `number`:
      the ID field sits below TRACK_SIZE on an ID mark byte whose sector
      number byte (three places on) is `number`, and the data field, when
      found, is a data or ID mark at least seven bytes further and below
      TRACK_SIZE. */
  ghost predicate ValidEntry(raw: seq<byte>, number: byte, sec: Sector) {
    var id := sec.idPtr;
    && id < TRACK_SIZE
    && id + 4 < |raw|
    && raw[id] == ID_MARK
    && raw[id + 3] == number
    && match sec.dataPtr
       case None => true
       case Some(d) => id + 7 <= d < TRACK_SIZE && d < |raw| && IsDataOrId(raw[d])
  }

  /** A scanned ID mark: a valid entry whose size code is the byte four
      places after the mark. */
  ghost predicate ValidRecord(raw: seq<byte>, rec: IdRecord) {
    ValidEntry(raw, rec.number, rec.at) && raw[rec.at.idPtr + 4] == rec.sizeCode
  }

  /** The cursor discipline: marks come in increasing order, each later ID
      mark at or past the previous data mark plus its jump, and only the
      last mark may lack a data field. */
  ghost predicate Ordered(trace: seq<IdRecord>) {
    forall i :: 0 <= i < |trace| - 1 ==>
      && trace[i].at.dataPtr.Some?
      && trace[i + 1].at.idPtr >= trace[i].at.dataPtr.value + Jump(trace[i].sizeCode)
  }

  lemma {:induction false} MarksWellFormed(raw: seq<byte>, p: nat, trace: seq<IdRecord>)
    requires Marks(raw, p) == Ok(trace)
    ensures forall i :: 0 <= i < |trace| ==> ValidRecord(raw, trace[i]) && p <= trace[i].at.idPtr
    ensures Ordered(trace)
    decreases TRACK_SIZE - p
  {
    var q := SeekId(raw, p).value;
    if q < TRACK_SIZE {
      assert Marks(raw, p) == MarksAt(raw, q);
      var d := SeekData(raw, q + 7).value;
      var head := IdRecord(raw[q + 3], raw[q + 4], Sector(q, if d < TRACK_SIZE then Some(d) else None));
      assert ValidRecord(raw, head);
      if d < TRACK_SIZE {
        var next := d + Jump(raw[q + 4]);
        assert MarksAt(raw, q) == Prepend([head], Marks(raw, next));
        var rest := Marks(raw, next).value;
        MarksWellFormed(raw, next, rest);
        assert trace == [head] + rest;
        OrderedCons(head, rest);
      } else {
        assert trace == [head];
      }
    }
  }

  lemma OrderedCons(head: IdRecord, rest: seq<IdRecord>)
    requires Ordered(rest)
    requires head.at.dataPtr.Some?
    requires forall i :: 0 <= i < |rest| ==> head.at.dataPtr.value + Jump(head.sizeCode) <= rest[i].at.idPtr
    ensures Ordered([head] + rest)
  {
    var t := [head] + rest;
    forall i | 0 <= i < |t| - 1
      ensures t[i].at.dataPtr.Some? && t[i + 1].at.idPtr >= t[i].at.dataPtr.value + Jump(t[i].sizeCode)
    {
      if i > 0 {
        assert t[i] == rest[i - 1] && t[i + 1] == rest[i];
      }
    }
  }

  /** The map keeps exactly the sector numbers of the trace, each with the
      positions of the LAST mark that carried it. */
  lemma {:induction false} ToMapLastWins(trace: seq<IdRecord>)
    ensures forall s :: s in ToMap(trace) <==> exists i :: 0 <= i < |trace| && trace[i].number == s
    ensures forall s :: s in ToMap(trace) ==>
      exists i :: 0 <= i < |trace| && trace[i].number == s && ToMap(trace)[s] == trace[i].at &&
        forall j :: i < j < |trace| ==> trace[j].number != s
  {
    if trace != [] {
      var init := trace[..|trace| - 1];
      var last := trace[|trace| - 1];
      var m := ToMap(init);
      assert ToMap(trace) == m[last.number := last.at];
      ToMapLastWins(init);
      forall s | s in ToMap(trace)
        ensures exists i :: 0 <= i < |trace| && trace[i].number == s && ToMap(trace)[s] == trace[i].at &&
                            forall j :: i < j < |trace| ==> trace[j].number != s
      {
        if s == last.number {
          assert trace[|trace| - 1].number == s;
        } else {
          assert s in m;
          var i :| 0 <= i < |init| && init[i].number == s && m[s] == init[i].at &&
            forall j :: i < j < |init| ==> init[j].number != s;
          assert trace[i] == init[i];
          assert ToMap(trace)[s] == m[s];
        }
      }
      forall s | exists i :: 0 <= i < |trace| && trace[i].number == s
        ensures s in ToMap(trace)
      {
        var i :| 0 <= i < |trace| && trace[i].number == s;
        if i < |init| {
          assert init[i] == trace[i];
        }
      }
    }
  }

  /** Every entry of a decoded sector map is a genuine ID mark whose number
      is its key, with a data field that is either absent or a mark in
      range; an entry without a data field is the last one scanned. */
  lemma DecodeWellFormed(raw: seq<byte>, m: SectorMap)
    requires DecodeSpec(raw) == Ok(m)
    ensures forall s :: s in m ==> ValidEntry(raw, s, m[s])
    ensures forall s, u :: s in m && u in m && m[s].dataPtr.None? ==> m[u].idPtr <= m[s].idPtr
  {
    DecodeKeepsLastMarks(raw);
    var trace := Marks(raw, 0).value;
    MarksWellFormed(raw, 0, trace);
    ToMapLastWins(trace);
    forall s, u | s in m && u in m && m[s].dataPtr.None?
      ensures m[u].idPtr <= m[s].idPtr
    {
      var i := LastMark(trace, s);
      var k := LastMark(trace, u);
      assert i == |trace| - 1;
      IdsIncrease(raw, trace, k, i);
    }
  }

  /** The position of the last mark of a sector in the map. */
  lemma LastMark(trace: seq<IdRecord>, s: byte) returns (i: nat)
    requires s in ToMap(trace)
    ensures i < |trace| && trace[i].number == s && ToMap(trace)[s] == trace[i].at
    ensures forall j :: i < j < |trace| ==> trace[j].number != s
  {
    ToMapLastWins(trace);
    i :| 0 <= i < |trace| && trace[i].number == s && ToMap(trace)[s] == trace[i].at &&
      forall j :: i < j < |trace| ==> trace[j].number != s;
  }

  lemma {:induction false} IdsIncrease(raw: seq<byte>, trace: seq<IdRecord>, k: nat, i: nat)
    requires forall j :: 0 <= j < |trace| ==> ValidRecord(raw, trace[j])
    requires Ordered(trace)
    requires k <= i < |trace|
    ensures trace[k].at.idPtr <= trace[i].at.idPtr
    decreases i - k
  {
    if k < i {
      IdsIncrease(raw, trace, k + 1, i);
    }
  }

  /** On a full-length buffer the only way the scan fails is an ID mark in
      the last four positions, whose sector number or size code lies past
      the end. */
  lemma {:induction false} FullTrackFailsOnlyAtTheEnd(raw: seq<byte>, p: nat)
    requires |raw| >= TRACK_SIZE
    requires Marks(raw, p).Err?
    ensures exists q :: TRACK_SIZE - 4 <= q < TRACK_SIZE && raw[q] == ID_MARK
    decreases TRACK_SIZE - p
  {
    var q := SeekId(raw, p).value;
    assert q < TRACK_SIZE;
    if q + 4 >= |raw| {
      assert raw[q] == ID_MARK;
    } else {
      var d := SeekData(raw, q + 7).value;
      FullTrackFailsOnlyAtTheEnd(raw, d + Jump(raw[q + 4]));
    }
  }

  /** The bytes read for a sector, `raw[data_ptr + 1 : data_ptr + 257]`.
      An absent data field keeps the original's -1 sentinel, which reads
      the first 256 bytes of the track. */
  function SectorData(raw: seq<byte>, sec: Sector): (r: seq<byte>)
    ensures |r| <= 256
    ensures DataStart(sec) + 256 <= |raw| ==> |r| == 256
    ensures |r| > 0 ==> DataStart(sec) + |r| <= |raw|
    ensures forall k :: 0 <= k < |r| ==> r[k] == raw[DataStart(sec) + k]
  {
    Slice(raw, DataStart(sec), DataStart(sec) + 256)
  }

  /** Where a sector's bytes start: one past its data mark, or 0 for an
      absent data field (the -1 sentinel plus one). */
  function DataStart(sec: Sector): nat {
    match sec.dataPtr
    case None => 0
    case Some(d) => d + 1
  }
}
