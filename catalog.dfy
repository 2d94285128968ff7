/** `FTDOS_cat` (src/ftdos.py:255-289): the catalog is a chain of sectors
    starting at track 20, sector 2. Each catalog sector holds its own link
    in bytes 0-1, the link to the next catalog sector in bytes 2-3 (track
    0xFF or sector 0 ends the chain) and 14 records of 18 bytes from offset
    4. The result maps each used record's raw 12-byte name to its entry, a
    later record replacing an earlier one of the same name. */
module Catalog {
  import opened Common
  import opened Image
  import opened Directory

  type Dirents = map<seq<byte>, DirEntry>

  const FIRST_CATALOG: Link := (20, 2)
  const RECORDS_PER_SECTOR: nat := 14
  /** Bytes a catalog sector must have for its 14 records to be complete. */
  const CATALOG_BYTES: nat := 4 + RECORDS_PER_SECTOR * RECORD_SIZE

  /** The test of the walkers' `while` loops: track 0xFF or sector 0 ends a
      chain. */
  predicate EndOfChain(link: Link) {
    link.0 == 0xFF || link.1 == 0
  }

  /** `cat[4 + 18*i : 4 + 18*i + 18]`. */
  function RecordAt(cat: seq<byte>, i: nat): (e: seq<byte>)
    ensures |cat| >= 4 + RECORD_SIZE * (i + 1) ==> |e| == RECORD_SIZE
    ensures |e| > 0 ==> 4 + RECORD_SIZE * i + |e| <= |cat|
    ensures forall k :: 0 <= k < |e| ==> e[k] == cat[4 + RECORD_SIZE * i + k]
  {
    Slice(cat, 4 + RECORD_SIZE * i, 4 + RECORD_SIZE * i + RECORD_SIZE)
  }

  /** `dirents[entry.keys()[0]] = entry.values()[0]` for a used record. */
  function Insert(acc: Dirents, e: Option<(seq<byte>, DirEntry)>): Dirents {
    match e
    case None => acc
    case Some((name, d)) => acc[name := d]
  }

  /** Decodes records `i..13` of a catalog sector into `acc`. */
  function AddRecords(cat: seq<byte>, i: nat, acc: Dirents): (r: Result<Dirents>)
    requires i <= RECORDS_PER_SECTOR
    ensures r.Ok? <==> i == RECORDS_PER_SECTOR || |cat| >= CATALOG_BYTES
    decreases RECORDS_PER_SECTOR - i
  {
    if i == RECORDS_PER_SECTOR then Ok(acc)
    else
      var e :- ParseDirEntry(RecordAt(cat, i));
      AddRecords(cat, i + 1, Insert(acc, e))
  }

  /** The catalog walk from `link`, having read the sectors in `visited`.
      A link read a second time is a corrupt (cyclic) catalog, on which the
      original loops forever. */
  function Walk(tracks: Tracks, link: Link, visited: set<Link>, acc: Dirents): Result<Dirents>
    decreases AllLinks() - visited
  {
    if EndOfChain(link) then Ok(acc)
    else if link in visited then Err(CatalogCycle(link))
    else
      var cat :- SectorBytes(tracks, link.0 as nat, link.1 as nat);
      if |cat| < 4 then Err(IndexOutOfRange(|cat|))
      else
        var acc' :- AddRecords(cat, 0, acc);
        LinkInAll(link);
        Walk(tracks, (cat[2], cat[3]), visited + {link}, acc')
  }

  /** `FTDOS_cat()`. */
  function ListFiles(tracks: Tracks): Result<Dirents> {
    Walk(tracks, FIRST_CATALOG, {}, map[])
  }

  /** Record `j` of a catalog sector is used and named `name`. */
  predicate Names(cat: seq<byte>, j: nat, name: seq<byte>) {
    var e := ParseDirEntry(RecordAt(cat, j));
    e.Ok? && e.value.Some? && e.value.value.0 == name
  }

  /** The entry decoded from record `j` (meaningful when it is used). */
  function EntryOf(cat: seq<byte>, j: nat): DirEntry
    requires ParseDirEntry(RecordAt(cat, j)).Ok? && ParseDirEntry(RecordAt(cat, j)).value.Some?
  {
    ParseDirEntry(RecordAt(cat, j)).value.value.1
  }

  /** The decoded records of a complete catalog sector. */
  function Entries(cat: seq<byte>): (es: seq<Option<(seq<byte>, DirEntry)>>)
    requires |cat| >= CATALOG_BYTES
    ensures |es| == RECORDS_PER_SECTOR
    ensures forall j :: 0 <= j < RECORDS_PER_SECTOR ==> ParseDirEntry(RecordAt(cat, j)) == Ok(es[j])
  {
    seq(RECORDS_PER_SECTOR, j requires 0 <= j < RECORDS_PER_SECTOR => ParseDirEntry(RecordAt(cat, j)).value)
  }

  /** The decoded records inserted one after the other. */
  function InsertAll(es: seq<Option<(seq<byte>, DirEntry)>>, acc: Dirents): Dirents
    decreases |es|
  {
    if es == [] then acc else InsertAll(es[1..], Insert(acc, es[0]))
  }

  /** A decoded record is used and carries `name`. */
  predicate Carries(e: Option<(seq<byte>, DirEntry)>, name: seq<byte>) {
    e.Some? && e.value.0 == name
  }

  /** The records of a complete sector all decode, and their entries are
      inserted in record order. */
  lemma {:induction false} AddRecordsInsertAll(cat: seq<byte>, i: nat, acc: Dirents)
    requires i <= RECORDS_PER_SECTOR && |cat| >= CATALOG_BYTES
    ensures AddRecords(cat, i, acc) == Ok(InsertAll(Entries(cat)[i..], acc))
    decreases RECORDS_PER_SECTOR - i
  {
    if i < RECORDS_PER_SECTOR {
      var es := Entries(cat);
      assert es[i..][0] == es[i] && es[i..][1..] == es[i + 1..];
      AddRecordsInsertAll(cat, i + 1, Insert(acc, es[i]));
    }
  }

  /** A name is in the result iff it was in `acc` or some record carries it. */
  lemma {:induction false} InsertAllKeys(es: seq<Option<(seq<byte>, DirEntry)>>, acc: Dirents, name: seq<byte>)
    ensures name in InsertAll(es, acc) <==> name in acc || exists j :: 0 <= j < |es| && Carries(es[j], name)
    decreases |es|
  {
    if es != [] {
      InsertAllKeys(es[1..], Insert(acc, es[0]), name);
      if exists j :: 0 <= j < |es| && Carries(es[j], name) {
        var j :| 0 <= j < |es| && Carries(es[j], name);
        if j > 0 {
          assert es[1..][j - 1] == es[j];
        }
      }
      if exists j :: 0 <= j < |es[1..]| && Carries(es[1..][j], name) {
        var j :| 0 <= j < |es[1..]| && Carries(es[1..][j], name);
        assert es[j + 1] == es[1..][j];
      }
    }
  }

  /** A name no record carries keeps its entry from `acc`. */
  lemma {:induction false} InsertAllUntouched(es: seq<Option<(seq<byte>, DirEntry)>>, acc: Dirents, name: seq<byte>)
    requires name in acc && forall j :: 0 <= j < |es| ==> !Carries(es[j], name)
    ensures name in InsertAll(es, acc) && InsertAll(es, acc)[name] == acc[name]
    decreases |es|
  {
    if es != [] {
      assert !Carries(es[0], name);
      assert forall j :: 0 <= j < |es[1..]| ==> es[1..][j] == es[j + 1];
      InsertAllUntouched(es[1..], Insert(acc, es[0]), name);
    }
  }

  /** A name takes the entry of the last record that carries it. */
  lemma {:induction false} InsertAllLastWins(es: seq<Option<(seq<byte>, DirEntry)>>, acc: Dirents, j: nat, name: seq<byte>)
    requires j < |es| && Carries(es[j], name)
    requires forall j' :: j < j' < |es| ==> !Carries(es[j'], name)
    ensures name in InsertAll(es, acc) && InsertAll(es, acc)[name] == es[j].value.1
    decreases |es|
  {
    var acc' := Insert(acc, es[0]);
    assert forall k :: 0 <= k < |es[1..]| ==> es[1..][k] == es[k + 1];
    if j == 0 {
      InsertAllUntouched(es[1..], acc', name);
    } else {
      InsertAllLastWins(es[1..], acc', j - 1, name);
    }
  }

  /** One catalog sector: a name is in the result iff it was in `acc` or
      some used record from `i` on carries it. */
  lemma AddRecordsKeys(cat: seq<byte>, i: nat, acc: Dirents, r: Dirents, name: seq<byte>)
    requires i <= RECORDS_PER_SECTOR && AddRecords(cat, i, acc) == Ok(r)
    ensures name in r <==> name in acc || exists j :: i <= j < RECORDS_PER_SECTOR && Names(cat, j, name)
  {
    if i < RECORDS_PER_SECTOR {
      AddRecordsInsertAll(cat, i, acc);
      InsertAllKeys(Entries(cat)[i..], acc, name);
      NamesCarried(cat, i, name);
    }
  }

  /** A record from `i` on names `name` exactly when its decoded entry
      carries it. */
  lemma NamesCarried(cat: seq<byte>, i: nat, name: seq<byte>)
    requires i <= RECORDS_PER_SECTOR && |cat| >= CATALOG_BYTES
    ensures (exists j :: i <= j < RECORDS_PER_SECTOR && Names(cat, j, name))
        <==> (exists k :: 0 <= k < |Entries(cat)[i..]| && Carries(Entries(cat)[i..][k], name))
  {
    var full := Entries(cat);
    forall j | i <= j < RECORDS_PER_SECTOR
      ensures Names(cat, j, name) == Carries(full[j], name)
    {
      NamesEntry(cat, j, name);
    }
    CarriedFrom(full, i, name);
  }

  /** Some entry from `i` on carries `name` exactly when some entry of the
      suffix from `i` does. */
  lemma CarriedFrom(es: seq<Option<(seq<byte>, DirEntry)>>, i: nat, name: seq<byte>)
    requires i <= |es|
    ensures (exists j :: i <= j < |es| && Carries(es[j], name))
        <==> (exists k :: 0 <= k < |es[i..]| && Carries(es[i..][k], name))
  {
    if exists j :: i <= j < |es| && Carries(es[j], name) {
      var j :| i <= j < |es| && Carries(es[j], name);
      assert es[i..][j - i] == es[j];
    }
  }

  /** Record `j` names `name` exactly when its decoded entry carries it. */
  lemma NamesEntry(cat: seq<byte>, j: nat, name: seq<byte>)
    requires j < RECORDS_PER_SECTOR && |cat| >= CATALOG_BYTES
    ensures Names(cat, j, name) == Carries(Entries(cat)[j], name)
  {
  }

  /** One catalog sector: a name keeps the entry of the LAST used record
      from `i` on that carries it. */
  lemma AddRecordsLastWins(cat: seq<byte>, i: nat, acc: Dirents, r: Dirents, j: nat, name: seq<byte>)
    requires i <= j < RECORDS_PER_SECTOR && AddRecords(cat, i, acc) == Ok(r)
    requires Names(cat, j, name)
    requires forall j' :: j < j' < RECORDS_PER_SECTOR ==> !Names(cat, j', name)
    ensures name in r && r[name] == EntryOf(cat, j)
  {
    AddRecordsInsertAll(cat, i, acc);
    LastCarrier(cat, i, j, name);
    InsertAllLastWins(Entries(cat)[i..], acc, j - i, name);
  }

  /** The last record from `i` on naming `name` is the last decoded entry
      carrying it. */
  lemma LastCarrier(cat: seq<byte>, i: nat, j: nat, name: seq<byte>)
    requires i <= j < RECORDS_PER_SECTOR && |cat| >= CATALOG_BYTES
    requires Names(cat, j, name)
    requires forall j' :: j < j' < RECORDS_PER_SECTOR ==> !Names(cat, j', name)
    ensures Carries(Entries(cat)[i..][j - i], name) && Entries(cat)[i..][j - i].value.1 == EntryOf(cat, j)
    ensures forall k :: j - i < k < RECORDS_PER_SECTOR - i ==> !Carries(Entries(cat)[i..][k], name)
  {
    var es := Entries(cat)[i..];
    forall k | j - i < k < |es|
      ensures !Carries(es[k], name)
    {
      NamesEntry(cat, i + k, name);
      assert es[k] == Entries(cat)[i + k];
    }
    NamesEntry(cat, j, name);
    assert es[j - i] == Entries(cat)[j];
  }

  /** Catalog names are the 12 raw name bytes and no listed file has the
      unused-slot track 0xFF. */
  ghost predicate WellFormed(m: Dirents) {
    forall name :: name in m ==> |name| == 12 && m[name].track != UNUSED_TRACK
  }

  /** A decoded record that is used has a 12-byte name and a track other
      than 0xFF. */
  predicate UsedWellFormed(e: Option<(seq<byte>, DirEntry)>) {
    e.Some? ==> |e.value.0| == 12 && e.value.1.track != UNUSED_TRACK
  }

  lemma {:induction false} InsertAllWellFormed(es: seq<Option<(seq<byte>, DirEntry)>>, acc: Dirents)
    requires WellFormed(acc) && forall j :: 0 <= j < |es| ==> UsedWellFormed(es[j])
    ensures WellFormed(InsertAll(es, acc))
    decreases |es|
  {
    if es != [] {
      assert UsedWellFormed(es[0]);
      assert forall j :: 0 <= j < |es[1..]| ==> es[1..][j] == es[j + 1];
      InsertAllWellFormed(es[1..], Insert(acc, es[0]));
    }
  }

  lemma AddRecordsWellFormed(cat: seq<byte>, i: nat, acc: Dirents)
    requires i <= RECORDS_PER_SECTOR && WellFormed(acc)
    ensures AddRecords(cat, i, acc).Ok? ==> WellFormed(AddRecords(cat, i, acc).value)
  {
    if i < RECORDS_PER_SECTOR && AddRecords(cat, i, acc).Ok? {
      var es := Entries(cat);
      AddRecordsInsertAll(cat, i, acc);
      forall j | 0 <= j < |es[i..]|
        ensures UsedWellFormed(es[i..][j])
      {
        assert ParseDirEntry(RecordAt(cat, i + j)) == Ok(es[i + j]);
      }
      InsertAllWellFormed(es[i..], acc);
    }
  }

  lemma {:induction false} WalkWellFormed(tracks: Tracks, link: Link, visited: set<Link>, acc: Dirents)
    requires WellFormed(acc)
    ensures Walk(tracks, link, visited, acc).Ok? ==> WellFormed(Walk(tracks, link, visited, acc).value)
    decreases AllLinks() - visited
  {
    if !EndOfChain(link) && link !in visited && Walk(tracks, link, visited, acc).Ok? {
      var cat := SectorBytes(tracks, link.0 as nat, link.1 as nat).value;
      AddRecordsWellFormed(cat, 0, acc);
      LinkInAll(link);
      WalkWellFormed(tracks, (cat[2], cat[3]), visited + {link}, AddRecords(cat, 0, acc).value);
    }
  }

  /** The catalog sectors the walk from `link` reads, in chain order, each
      complete (all 14 records present). It fails exactly where the walk
      fails, with the same error, whatever the walk has listed so far. */
  function CatalogSectors(tracks: Tracks, link: Link, visited: set<Link>): (r: Result<seq<seq<byte>>>)
    ensures r.Ok? ==> forall k :: 0 <= k < |r.value| ==> |r.value[k]| >= CATALOG_BYTES
    ensures r.Ok? ==> (r.value == [] <==> EndOfChain(link))
    ensures r.Ok? && r.value != [] ==> SectorBytes(tracks, link.0 as nat, link.1 as nat) == Ok(r.value[0])
    decreases AllLinks() - visited
  {
    if EndOfChain(link) then Ok([])
    else if link in visited then Err(CatalogCycle(link))
    else
      var cat :- SectorBytes(tracks, link.0 as nat, link.1 as nat);
      if |cat| < 4 then Err(IndexOutOfRange(|cat|))
      else if |cat| < CATALOG_BYTES then Err(AddRecords(cat, 0, map[]).error)
      else
        LinkInAll(link);
        Prepend([cat], CatalogSectors(tracks, (cat[2], cat[3]), visited + {link}))
  }

  /** The sectors read form the chain: each next sector is the one the link
      in bytes 2-3 of the sector before names, and the last sector's link
      ends the chain. */
  lemma {:induction false} CatalogSectorsLinked(tracks: Tracks, link: Link, visited: set<Link>, sectors: seq<seq<byte>>)
    requires CatalogSectors(tracks, link, visited) == Ok(sectors)
    ensures forall k :: 0 <= k < |sectors| - 1 ==>
      SectorBytes(tracks, sectors[k][2] as nat, sectors[k][3] as nat) == Ok(sectors[k + 1])
    ensures sectors != [] ==> EndOfChain((sectors[|sectors| - 1][2], sectors[|sectors| - 1][3]))
    decreases AllLinks() - visited
  {
    if sectors != [] {
      var cat := sectors[0];
      var next := (cat[2], cat[3]);
      LinkInAll(link);
      var rest := CatalogSectors(tracks, next, visited + {link}).value;
      assert sectors == [cat] + rest;
      CatalogSectorsLinked(tracks, next, visited + {link}, rest);
      forall k | 0 <= k < |sectors| - 1
        ensures SectorBytes(tracks, sectors[k][2] as nat, sectors[k][3] as nat) == Ok(sectors[k + 1])
      {
        if k > 0 {
          assert sectors[k] == rest[k - 1] && sectors[k + 1] == rest[k];
        }
      }
      if rest != [] {
        assert sectors[|sectors| - 1] == rest[|rest| - 1];
      }
    }
  }

  /** The decoded records of complete catalog sectors, sector after sector. */
  function SectorEntries(sectors: seq<seq<byte>>): (es: seq<Option<(seq<byte>, DirEntry)>>)
    requires forall k :: 0 <= k < |sectors| ==> |sectors[k]| >= CATALOG_BYTES
    ensures |es| == RECORDS_PER_SECTOR * |sectors|
  {
    if sectors == [] then [] else Entries(sectors[0]) + SectorEntries(sectors[1..])
  }

  /** The decoded records of each complete sector, one list per sector. */
  function SectorRecords(sectors: seq<seq<byte>>): (rs: seq<seq<Option<(seq<byte>, DirEntry)>>>)
    requires forall k :: 0 <= k < |sectors| ==> |sectors[k]| >= CATALOG_BYTES
    ensures |rs| == |sectors| && forall k :: 0 <= k < |rs| ==> |rs[k]| == RECORDS_PER_SECTOR
  {
    seq(|sectors|, k requires 0 <= k < |sectors| => Entries(sectors[k]))
  }

  /** Lists of records joined in order. */
  function Concat<T>(chunks: seq<seq<T>>): seq<T> {
    if chunks == [] then [] else chunks[0] + Concat(chunks[1..])
  }

  /** Joining lists of one sector's worth of records each puts record `j` of
      list `k` at position `14 * k + j`. */
  lemma {:induction false} ConcatAt<T>(chunks: seq<seq<T>>, k: nat, j: nat)
    requires forall i :: 0 <= i < |chunks| ==> |chunks[i]| == RECORDS_PER_SECTOR
    requires k < |chunks| && j < RECORDS_PER_SECTOR
    ensures RECORDS_PER_SECTOR * k + j < |Concat(chunks)|
    ensures Concat(chunks)[RECORDS_PER_SECTOR * k + j] == chunks[k][j]
  {
    ConcatLength(chunks[1..]);
    if k > 0 {
      ConcatAt(chunks[1..], k - 1, j);
    }
  }

  /** Joining lists of one sector's worth of records each gives 14 records
      per list. */
  lemma {:induction false} ConcatLength<T>(chunks: seq<seq<T>>)
    requires forall i :: 0 <= i < |chunks| ==> |chunks[i]| == RECORDS_PER_SECTOR
    ensures |Concat(chunks)| == RECORDS_PER_SECTOR * |chunks|
  {
    if chunks != [] {
      ConcatLength(chunks[1..]);
    }
  }

  /** The records of the sectors are the per-sector record lists joined. */
  lemma {:induction false} SectorEntriesConcat(sectors: seq<seq<byte>>)
    requires forall k :: 0 <= k < |sectors| ==> |sectors[k]| >= CATALOG_BYTES
    ensures SectorEntries(sectors) == Concat(SectorRecords(sectors))
  {
    if sectors != [] {
      SectorEntriesConcat(sectors[1..]);
      assert SectorRecords(sectors)[1..] == SectorRecords(sectors[1..]);
    }
  }

  /** Record `j` of sector `k` sits at position `14 * k + j`. */
  lemma SectorEntriesAt(sectors: seq<seq<byte>>, k: nat, j: nat)
    requires forall k :: 0 <= k < |sectors| ==> |sectors[k]| >= CATALOG_BYTES
    requires k < |sectors| && j < RECORDS_PER_SECTOR
    ensures RECORDS_PER_SECTOR * k + j < |SectorEntries(sectors)|
    ensures SectorEntries(sectors)[RECORDS_PER_SECTOR * k + j] == Entries(sectors[k])[j]
  {
    SectorEntriesConcat(sectors);
    ConcatAt(SectorRecords(sectors), k, j);
  }

  /** Inserting two record lists one after the other inserts their
      concatenation. */
  lemma {:induction false} InsertAllAppend(a: seq<Option<(seq<byte>, DirEntry)>>, b: seq<Option<(seq<byte>, DirEntry)>>, acc: Dirents)
    ensures InsertAll(a + b, acc) == InsertAll(b, InsertAll(a, acc))
    decreases |a|
  {
    if a != [] {
      assert (a + b)[0] == a[0] && (a + b)[1..] == a[1..] + b;
      InsertAllAppend(a[1..], b, Insert(acc, a[0]));
    } else {
      assert a + b == b;
    }
  }

  /** How a sector's records fail does not depend on what was listed
      before. */
  lemma {:induction false} AddRecordsFailure(cat: seq<byte>, i: nat, a: Dirents, b: Dirents)
    requires i <= RECORDS_PER_SECTOR
    ensures AddRecords(cat, i, a).Err? ==> AddRecords(cat, i, b) == AddRecords(cat, i, a)
    decreases RECORDS_PER_SECTOR - i
  {
    if i < RECORDS_PER_SECTOR {
      var e := ParseDirEntry(RecordAt(cat, i));
      if e.Ok? {
        AddRecordsFailure(cat, i + 1, Insert(a, e.value), Insert(b, e.value));
      }
    }
  }

  /** The walk inserts the records of the sectors it reads, in chain order
      and record order, and fails exactly when reading them fails. */
  lemma {:induction false} WalkReadsSectors(tracks: Tracks, link: Link, visited: set<Link>, acc: Dirents)
    ensures CatalogSectors(tracks, link, visited).Err? ==>
      Walk(tracks, link, visited, acc) == Err(CatalogSectors(tracks, link, visited).error)
    ensures CatalogSectors(tracks, link, visited).Ok? ==>
      Walk(tracks, link, visited, acc) == Ok(InsertAll(SectorEntries(CatalogSectors(tracks, link, visited).value), acc))
    decreases AllLinks() - visited
  {
    if !EndOfChain(link) && link !in visited {
      var s := SectorBytes(tracks, link.0 as nat, link.1 as nat);
      if s.Ok? && |s.value| >= 4 {
        var cat := s.value;
        if |cat| < CATALOG_BYTES {
          AddRecordsFailure(cat, 0, map[], acc);
        } else {
          AddRecordsInsertAll(cat, 0, acc);
          assert Entries(cat)[0..] == Entries(cat);
          var next := (cat[2], cat[3]);
          LinkInAll(link);
          WalkReadsSectors(tracks, next, visited + {link}, InsertAll(Entries(cat), acc));
          var rest := CatalogSectors(tracks, next, visited + {link});
          if rest.Ok? {
            var all := [cat] + rest.value;
            assert all[0] == cat && all[1..] == rest.value;
            InsertAllAppend(Entries(cat), SectorEntries(rest.value), acc);
          }
        }
      }
    }
  }

  /** Position `i` of the records of complete sectors is record `j` of
      sector `k`. */
  lemma {:induction false} RecordPosition(sectors: seq<seq<byte>>, i: nat) returns (k: nat, j: nat)
    requires forall k :: 0 <= k < |sectors| ==> |sectors[k]| >= CATALOG_BYTES
    requires i < RECORDS_PER_SECTOR * |sectors|
    ensures k < |sectors| && j < RECORDS_PER_SECTOR && i == RECORDS_PER_SECTOR * k + j
    decreases i
  {
    if i < RECORDS_PER_SECTOR {
      k, j := 0, i;
    } else {
      var k', j' := RecordPosition(sectors[1..], i - RECORDS_PER_SECTOR);
      k, j := k' + 1, j';
    }
  }

  /** Record `j` of sector `k` names `name` exactly when its place in the
      concatenated records carries it, with the same entry. */
  lemma CarriesAt(sectors: seq<seq<byte>>, k: nat, j: nat, name: seq<byte>)
    requires forall k :: 0 <= k < |sectors| ==> |sectors[k]| >= CATALOG_BYTES
    requires k < |sectors| && j < RECORDS_PER_SECTOR
    ensures RECORDS_PER_SECTOR * k + j < |SectorEntries(sectors)|
    ensures Carries(SectorEntries(sectors)[RECORDS_PER_SECTOR * k + j], name) == Names(sectors[k], j, name)
    ensures Names(sectors[k], j, name) ==> SectorEntries(sectors)[RECORDS_PER_SECTOR * k + j].value.1 == EntryOf(sectors[k], j)
  {
    SectorEntriesAt(sectors, k, j);
    NamesEntry(sectors[k], j, name);
  }

  /** A catalog whose sectors read lists the records of those sectors,
      inserted in chain order and record order. */
  lemma ListFilesInsertsSectors(tracks: Tracks, sectors: seq<seq<byte>>)
    requires CatalogSectors(tracks, FIRST_CATALOG, {}) == Ok(sectors)
    ensures ListFiles(tracks) == Ok(InsertAll(SectorEntries(sectors), map[]))
  {
    WalkReadsSectors(tracks, FIRST_CATALOG, {}, map[]);
  }

  /** Some used record of one of `sectors` carries `name`. */
  ghost predicate NamedIn(sectors: seq<seq<byte>>, name: seq<byte>) {
    exists k, j :: 0 <= k < |sectors| && 0 <= j < RECORDS_PER_SECTOR && Names(sectors[k], j, name)
  }

  /** The records of complete sectors insert exactly the names some used
      record carries. */
  lemma SectorNames(sectors: seq<seq<byte>>, name: seq<byte>)
    requires forall k :: 0 <= k < |sectors| ==> |sectors[k]| >= CATALOG_BYTES
    ensures name in InsertAll(SectorEntries(sectors), map[]) <==> NamedIn(sectors, name)
  {
    var es := SectorEntries(sectors);
    InsertAllKeys(es, map[], name);
    if name in InsertAll(es, map[]) {
      CarrierNamed(sectors, name);
    }
    if NamedIn(sectors, name) {
      NamedCarrier(sectors, name);
    }
  }

  /** A record of the concatenation that carries `name` is a used record of
      one of the sectors. */
  lemma CarrierNamed(sectors: seq<seq<byte>>, name: seq<byte>)
    requires forall k :: 0 <= k < |sectors| ==> |sectors[k]| >= CATALOG_BYTES
    requires exists i :: 0 <= i < |SectorEntries(sectors)| && Carries(SectorEntries(sectors)[i], name)
    ensures NamedIn(sectors, name)
  {
    var es := SectorEntries(sectors);
    var i :| 0 <= i < |es| && Carries(es[i], name);
    var k, j := RecordPosition(sectors, i);
    CarriesAt(sectors, k, j, name);
  }

  /** A used record of one of the sectors is a record of the concatenation
      that carries `name`. */
  lemma NamedCarrier(sectors: seq<seq<byte>>, name: seq<byte>)
    requires forall k :: 0 <= k < |sectors| ==> |sectors[k]| >= CATALOG_BYTES
    requires NamedIn(sectors, name)
    ensures exists i :: 0 <= i < |SectorEntries(sectors)| && Carries(SectorEntries(sectors)[i], name)
  {
    var k, j :| 0 <= k < |sectors| && 0 <= j < RECORDS_PER_SECTOR && Names(sectors[k], j, name);
    CarriesAt(sectors, k, j, name);
  }

  /** Record `j` of sector `k` is the last used record of `sectors` to
      carry `name`, in chain order and then record order. */
  ghost predicate LastNamed(sectors: seq<seq<byte>>, k: nat, j: nat, name: seq<byte>) {
    k < |sectors| && j < RECORDS_PER_SECTOR && Names(sectors[k], j, name) && NoLaterName(sectors, k, j, name)
  }

  /** No used record after record `j` of sector `k` carries `name`. */
  ghost predicate NoLaterName(sectors: seq<seq<byte>>, k: nat, j: nat, name: seq<byte>) {
    forall k', j' :: k <= k' < |sectors| && 0 <= j' < RECORDS_PER_SECTOR && (k' > k || j' > j) ==>
      !Names(sectors[k'], j', name)
  }

  /** A later place in the concatenated records is a later sector, or a
      later record of the same sector. */
  lemma PositionOrder(k: nat, j: nat, k': nat, j': nat)
    requires j < RECORDS_PER_SECTOR && j' < RECORDS_PER_SECTOR
    requires RECORDS_PER_SECTOR * k + j < RECORDS_PER_SECTOR * k' + j'
    ensures k < k' || (k == k' && j < j')
  {
  }

  /** The records of complete sectors give a name the entry of the last
      record that carries it. */
  lemma SectorLastWins(sectors: seq<seq<byte>>, k: nat, j: nat, name: seq<byte>)
    requires forall k :: 0 <= k < |sectors| ==> |sectors[k]| >= CATALOG_BYTES
    requires LastNamed(sectors, k, j, name)
    ensures name in InsertAll(SectorEntries(sectors), map[])
    ensures InsertAll(SectorEntries(sectors), map[])[name] == EntryOf(sectors[k], j)
  {
    var es := SectorEntries(sectors);
    var i := RECORDS_PER_SECTOR * k + j;
    CarriesAt(sectors, k, j, name);
    forall i' | i < i' < |es|
      ensures !Carries(es[i'], name)
    {
      var k', j' := RecordPosition(sectors, i');
      PositionOrder(k, j, k', j');
      CarriesAt(sectors, k', j', name);
    }
    InsertAllLastWins(es, map[], i, name);
  }

  /** The catalog lists exactly the names some used record of one of its
      sectors carries. */
  lemma CatalogNames(tracks: Tracks, sectors: seq<seq<byte>>, name: seq<byte>)
    requires CatalogSectors(tracks, FIRST_CATALOG, {}) == Ok(sectors)
    ensures ListFiles(tracks).Ok?
    ensures name in ListFiles(tracks).value <==> NamedIn(sectors, name)
  {
    SectorNames(sectors, name);
    ListFilesInsertsSectors(tracks, sectors);
  }

  /** A listed name keeps the entry of the last record that carries it,
      last in chain order and then in record order. */
  lemma CatalogLastWins(tracks: Tracks, sectors: seq<seq<byte>>, k: nat, j: nat, name: seq<byte>)
    requires CatalogSectors(tracks, FIRST_CATALOG, {}) == Ok(sectors)
    requires LastNamed(sectors, k, j, name)
    ensures ListFiles(tracks).Ok? && name in ListFiles(tracks).value
    ensures ListFiles(tracks).value[name] == EntryOf(sectors[k], j)
  {
    SectorLastWins(sectors, k, j, name);
    ListFilesInsertsSectors(tracks, sectors);
  }

  /** Every listed file has a 12-byte raw name and a first-FCB track other
      than 0xFF. */
  lemma ListedFilesAreUsed(tracks: Tracks)
    requires ListFiles(tracks).Ok?
    ensures WellFormed(ListFiles(tracks).value)
  {
    WalkWellFormed(tracks, FIRST_CATALOG, {}, map[]);
  }

  /** A catalog of one complete sector (its next link ends the chain) lists
      exactly that sector's used records, the last of each name winning. */
  lemma SingleSectorCatalog(tracks: Tracks, cat: seq<byte>)
    requires SectorBytes(tracks, 20, 2) == Ok(cat)
    requires |cat| >= CATALOG_BYTES && EndOfChain((cat[2], cat[3]))
    ensures ListFiles(tracks).Ok?
    ensures forall name :: name in ListFiles(tracks).value <==> exists j :: 0 <= j < RECORDS_PER_SECTOR && Names(cat, j, name)
  {
    var r := AddRecords(cat, 0, map[]).value;
    forall name ensures name in r <==> exists j :: 0 <= j < RECORDS_PER_SECTOR && Names(cat, j, name) {
      AddRecordsKeys(cat, 0, map[], r, name);
    }
    assert ListFiles(tracks) == Ok(r);
  }

  /** A first catalog sector whose next link is itself makes the walk fail
      instead of looping. */
  lemma SelfLinkedCatalogFails(tracks: Tracks, cat: seq<byte>)
    requires SectorBytes(tracks, 20, 2) == Ok(cat)
    requires |cat| >= CATALOG_BYTES && (cat[2], cat[3]) == FIRST_CATALOG
    ensures ListFiles(tracks) == Err(CatalogCycle(FIRST_CATALOG))
  {
    var acc := AddRecords(cat, 0, map[]).value;
    assert ListFiles(tracks) == Walk(tracks, FIRST_CATALOG, {FIRST_CATALOG}, acc);
  }
}
