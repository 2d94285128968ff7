/** The `ftdos` class (src/ftdos.py:51-234, 255-451): one disk image and
    what `validate` learnt about it. The image file's bytes stand in for the
    path the original opens on every read; each reader is proved equal to
    its specification function over the side-0 track reads of the object's
    current layout. */
module Disk {
  import opened Common
  import opened TrackScan
  import opened Image
  import opened Directory
  import opened Catalog
  import opened FileChain
  import opened SysImage
  import opened Bitmap
  import opened Reader

  class Ftdos {
    /** The bytes of the image file. */
    const image: seq<byte>
    var signature: seq<byte>
    var offset: nat
    var sides: nat
    var tracks: nat
    var sectors: nat
    var sectorSize: nat
    var geometry: nat
    var dos: string
    var dirents: Dirents

    /** `ftdos()`, to be used on the image file `image`. */
    constructor(image: seq<byte>)
      ensures this.image == image && dirents == map[]
      ensures signature == MFM_SIGNATURE && offset == 0 && sides == 2 && tracks == 41
      ensures sectors == 17 && sectorSize == 256 && geometry == 1 && dos == ""
    {
      this.image := image;
      dirents := map[];
      offset := 0;
      sides := 2;
      tracks := 41;
      sectors := 17;
      sectorSize := 256;
      geometry := 1;
      signature := MFM_SIGNATURE;
      dos := "";
    }

    /** What a track read depends on. */
    function TrackLayout(): Layout
      reads this
    {
      Layout(image, signature, offset, tracks)
    }

    /** The disk parameters the object holds. */
    function Params(): DiskParams
      reads this
    {
      DiskParams(dos, sides, tracks, sectors, sectorSize, geometry, offset)
    }

    /** `validate()`: the signature is always updated; an image that
        passes the probe then takes the parameters it returns (the DOS name,
        the header words, the probed track's sector count, 256-byte sectors
        and the data offset), any other keeps its parameters, and the
        catalog is left alone. */
    method Validate() returns (r: Result<Option<DiskParams>>)
      modifies this
      ensures r == ValidateSpec(image, old(offset), old(tracks))
      ensures signature == Signature(image) && dirents == old(dirents)
      ensures r.Ok? && r.value.Some? ==> Params() == r.value.value
      ensures !(r.Ok? && r.value.Some?) ==> Params() == old(Params())
    {
      signature := Signature(image);
      r := Probe();
      if r.Ok? && r.value.Some? {
        SetParams(r.value.value);
      }
    }

    /** The assignments `validate()` makes once the probe passes. */
    method SetParams(p: DiskParams)
      modifies this
      ensures Params() == p
      ensures signature == old(signature) && dirents == old(dirents)
    {
      dos, sides, tracks, sectors, sectorSize, geometry, offset :=
        p.dos, p.sides, p.tracks, p.sectors, p.sectorSize, p.geometry, p.offset;
    }

    /** The reads of `validate()` once the signature is recorded: the
        signature check, the probe of track 20 and the header words. */
    method Probe() returns (r: Result<Option<DiskParams>>)
      requires signature == Signature(image)
      ensures r == ValidateSpec(image, offset, tracks)
    {
      if signature != MFM_SIGNATURE {
        return Ok(None);
      }
      var t := ReadTrack(PROBE_TRACK, 0);
      if t.Err? {
        return Err(t.error);
      }
      var probe := DosProbe(t.value);
      if probe.Err? {
        return Err(probe.error);
      }
      if !probe.value {
        return Ok(None);
      }
      ProbeCoversHeader(image, offset, tracks);
      var sides := HeaderWord(image, SIDES_AT).value;
      var trackCount := HeaderWord(image, TRACKS_AT).value;
      var geometry := HeaderWord(image, GEOMETRY_AT).value;
      return Ok(Some(DiskParams(FT_DOS, sides, trackCount, |t.value.sectors|, SECTOR_SIZE, geometry, DATA_OFFSET)));
    }

    /** `read_track(track, side)`: the window is decoded by the scan loop. */
    method ReadTrack(track: nat, side: nat) returns (r: Result<Track>)
      ensures r == Image.ReadTrack(TrackLayout(), track, side)
    {
      if signature != MFM_SIGNATURE {
        return Err(NotMfmImage);
      }
      var raw := TrackWindow(TrackLayout(), track, side);
      var decoded := Decode(raw);
      if decoded.Err? {
        return Err(decoded.error);
      }
      return Ok(Track(raw, decoded.value));
    }

    /** A track read followed by the lookup of one of its sectors. */
    method ReadSector(track: nat, number: nat) returns (r: Result<seq<byte>>)
      ensures r == SectorBytes(Side0(TrackLayout()), track, number)
    {
      var t := ReadTrack(track, 0);
      if t.Err? {
        return Err(t.error);
      }
      return SectorOf(t.value, track, number);
    }

    /** The inner loop of `FTDOS_cat`: the 14 records of one catalog sector. */
    method AddSectorRecords(cat: seq<byte>, acc: Dirents) returns (r: Result<Dirents>)
      ensures r == AddRecords(cat, 0, acc)
    {
      var entries := acc;
      for i := 0 to RECORDS_PER_SECTOR
        invariant AddRecords(cat, i, entries) == AddRecords(cat, 0, acc)
      {
        var e := ParseDirEntry(RecordAt(cat, i));
        if e.Err? {
          return Err(e.error);
        }
        entries := Insert(entries, e.value);
      }
      return Ok(entries);
    }

    /** `FTDOS_cat()`: the catalog chain from track 20, sector 2. */
    method Cat() returns (r: Result<Dirents>)
      ensures r == ListFiles(Side0(TrackLayout()))
    {
      ghost var tr := Side0(TrackLayout());
      var entries: Dirents := map[];
      var link := FIRST_CATALOG;
      var visited: set<Link> := {};
      while !EndOfChain(link)
        invariant Walk(tr, link, visited, entries) == ListFiles(tr)
        decreases AllLinks() - visited
      {
        if link in visited {
          return Err(CatalogCycle(link));
        }
        var cat := ReadSector(link.0 as nat, link.1 as nat);
        if cat.Err? {
          return Err(cat.error);
        }
        var bytes := cat.value;
        if |bytes| < 4 {
          return Err(IndexOutOfRange(|bytes|));
        }
        var next := (bytes[2], bytes[3]);
        var added := AddSectorRecords(bytes, entries);
        if added.Err? {
          return Err(added.error);
        }
        entries := added.value;
        LinkInAll(link);
        visited := visited + {link};
        link := next;
      }
      return Ok(entries);
    }

    /** `read_dir()`: the catalog replaces the object's directory. */
    method ReadDir() returns (r: Result<Dirents>)
      modifies `dirents
      ensures r == ListFiles(Side0(TrackLayout()))
      ensures r.Ok? ==> dirents == r.value
      ensures r.Err? ==> dirents == old(dirents)
    {
      r := Cat();
      if r.Ok? {
        dirents := r.value;
      }
    }

    /** The pair loop of `FTDOS_read_file` over one FCB. */
    method FcbData(fcb: seq<byte>) returns (r: Result<seq<byte>>)
      ensures r == FcbBlocks(Side0(TrackLayout()), fcb, FIRST_PAIR)
    {
      ghost var tr := Side0(TrackLayout());
      var data: seq<byte> := [];
      var n := FIRST_PAIR;
      PrependNothing(FcbBlocks(tr, fcb, n));
      while n <= LAST_PAIR
        invariant Prepend(data, FcbBlocks(tr, fcb, n)) == FcbBlocks(tr, fcb, FIRST_PAIR)
        decreases LAST_PAIR + 2 - n
      {
        if n >= |fcb| {
          return Err(IndexOutOfRange(n));
        }
        if n + 1 >= |fcb| {
          return Err(IndexOutOfRange(n + 1));
        }
        var p, s := fcb[n], fcb[n + 1];
        if p == NO_BLOCK || s == NO_BLOCK {
          PrependEmpty(data);
          return Ok(data);
        }
        var block := ReadSector(p as nat, s as nat);
        if block.Err? {
          return Err(block.error);
        }
        PrependPrepend(data, block.value, FcbBlocks(tr, fcb, n + 2));
        data := data + block.value;
        n := n + 2;
      }
      PrependEmpty(data);
      return Ok(data);
    }

    /** The FCB loop of `FTDOS_read_file`: from the file's first FCB,
        each FCB's blocks are appended and the metadata is taken from the
        first one. */
    method WalkChain(name: seq<byte>, first: Link) returns (r: Result<(Option<FileMeta>, seq<byte>)>)
      ensures r == Chain(Side0(TrackLayout()), name, first, {}, None, [])
    {
      ghost var tr := Side0(TrackLayout());
      var link := first;
      var visited: set<Link> := {};
      var meta: Option<FileMeta> := None;
      var data: seq<byte> := [];
      while !EndOfChain(link)
        invariant Chain(tr, name, link, visited, meta, data) == Chain(tr, name, first, {}, None, [])
        decreases AllLinks() - visited
      {
        if link in visited {
          return Err(ChainCycle(link));
        }
        var fcb := ReadSector(link.0 as nat, link.1 as nat);
        if fcb.Err? {
          return Err(fcb.error);
        }
        var bytes := fcb.value;
        if |bytes| < 2 {
          return Err(IndexOutOfRange(|bytes|));
        }
        var next := (bytes[0], bytes[1]);
        if meta.None? {
          var m := FirstMeta(name, bytes);
          if m.Err? {
            return Err(m.error);
          }
          meta := Some(m.value);
        }
        var blocks := FcbData(bytes);
        if blocks.Err? {
          return Err(blocks.error);
        }
        data := data + blocks.value;
        LinkInAll(link);
        visited := visited + {link};
        link := next;
      }
      return Ok((meta, data));
    }

    /** `FTDOS_read_file(name)`: the FCB chain of a catalogued file. */
    method ReadChain(name: seq<byte>) returns (r: Result<FileRecord>)
      ensures r == ReadFileChain(Side0(TrackLayout()), dirents, name)
    {
      ghost var tr := Side0(TrackLayout());
      if name !in dirents {
        return Err(NoMetadata);
      }
      var first := (dirents[name].track, dirents[name].sector);
      var walked := WalkChain(name, first);
      FinishChain(tr, dirents, name, walked);
      if walked.Err? {
        return Err(walked.error);
      }
      var (meta, data) := walked.value;
      if meta.None? {
        return Err(NoMetadata);
      }
      var m := meta.value;
      return Ok(Record(m, data));
    }

    /** The innermost loop of `FTDOS_getsys`: sectors `first..last` of a
        decoded track. */
    method RunSectors(t: Track, track: nat, first: nat, last: nat) returns (r: Result<seq<byte>>)
      ensures r == TrackSectors(t, track, first, last)
    {
      var data: seq<byte> := [];
      var s := first;
      PrependNothing(TrackSectors(t, track, first, last));
      while s <= last
        invariant Prepend(data, TrackSectors(t, track, s, last)) == TrackSectors(t, track, first, last)
        decreases last + 1 - s
      {
        var block := SectorOf(t, track, s);
        if block.Err? {
          return Err(block.error);
        }
        PrependPrepend(data, block.value, TrackSectors(t, track, s + 1, last));
        data := data + block.value;
        s := s + 1;
      }
      PrependEmpty(data);
      return Ok(data);
    }

    /** One run of `FTDOS_getsys`: its track is read, then its sectors. */
    method ReadRunOf(run: Run) returns (r: Result<seq<byte>>)
      ensures r == ReadRun(Side0(TrackLayout()), run)
    {
      var t := ReadTrack(run.track, 0);
      if t.Err? {
        return Err(t.error);
      }
      r := RunSectors(t.value, run.track, run.first, run.last);
    }

    /** `FTDOS_getsys(startTrack)`: three tracks from `startTrack`, then 11
        sectors of the fourth. */
    method GetSys(startTrack: nat) returns (r: Result<seq<byte>>)
      ensures r == GetSysSpec(Side0(TrackLayout()), startTrack, sectors)
    {
      ghost var tr := Side0(TrackLayout());
      ghost var runs := SysRuns(startTrack, sectors);
      var data: seq<byte> := [];
      PrependNothing(ReadRuns(tr, runs));
      assert runs[0..] == runs;
      for track := startTrack to startTrack + 3
        invariant Prepend(data, ReadRuns(tr, runs[track - startTrack..])) == GetSysSpec(tr, startTrack, sectors)
      {
        var first := if track == startTrack then 3 else 1;
        var run := Run(track, first, sectors);
        assert run == runs[track - startTrack];
        ReadRunsStep(tr, runs, track - startTrack);
        var blocks := ReadRunOf(run);
        if blocks.Err? {
          return Err(blocks.error);
        }
        PrependPrepend(data, blocks.value, ReadRuns(tr, runs[track - startTrack + 1..]));
        data := data + blocks.value;
      }
      var run := Run(startTrack + 3, 1, 11);
      assert run == runs[3];
      ReadRunsStep(tr, runs, 3);
      assert runs[4..] == [];
      var blocks := ReadRunOf(run);
      if blocks.Err? {
        return Err(blocks.error);
      }
      PrependPrepend(data, blocks.value, Ok([]));
      PrependEmpty(data + blocks.value);
      return Ok(data + blocks.value);
    }

    /** `read_file(name)`. */
    method ReadFile(name: seq<byte>) returns (r: Result<FileRecord>)
      ensures r == ReadFileSpec(Side0(TrackLayout()), sectors, dirents, name)
    {
      if name in SYS_NAMES {
        var sys := GetSys(SYS_START_TRACK);
        if sys.Err? {
          return Err(sys.error);
        }
        return Ok(SysRecord(sys.value));
      } else if name == BOOT_NAME {
        var boot := ReadSector(0, 1);
        if boot.Err? {
          return Err(boot.error);
        }
        return Ok(BootSector(boot.value, BOOT_LOAD, BOOT_SIZE));
      } else {
        r := ReadChain(name);
      }
    }

    /** `display_bitmap()`: the bitmap sector rendered one row per track. */
    method DisplayBitmap() returns (r: Result<seq<string>>)
      ensures r == DisplayBitmapSpec(Side0(TrackLayout()), tracks, sides)
    {
      var raw := ReadSector(BITMAP_TRACK, BITMAP_SECTOR);
      if raw.Err? {
        return Err(raw.error);
      }
      r := Render(raw.value, tracks, sides);
    }
  }
}
