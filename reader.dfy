/** The image-level operations of the `ftdos` class as functions of the
    image: `validate` (src/ftdos.py:76-139), the name dispatch of
    `read_file` (src/ftdos.py:216-234) and `FTDOS_display_bitmap`
    (src/ftdos.py:453-492). */
module Reader {
  import opened Common
  import opened TrackScan
  import opened Image
  import opened Directory
  import opened Catalog
  import opened FileChain
  import opened SysImage
  import opened Bitmap

  /** What `validate` reports for an accepted image. */
  datatype DiskParams = DiskParams(
    dos: string,
    sides: nat,
    tracks: nat,
    sectors: nat,
    sectorSize: nat,
    geometry: nat,
    offset: nat)

  const FT_DOS: string := "FT-Dos"
  /** Where track data starts once the image is accepted: after the header. */
  const DATA_OFFSET: nat := 0x100
  const SECTOR_SIZE: nat := 256
  /** The probe reads the catalog's first track. */
  const PROBE_TRACK: nat := 20
  /** File offsets of the header's side count, track count and geometry. */
  const SIDES_AT: nat := 8
  const TRACKS_AT: nat := 12
  const GEOMETRY_AT: nat := 16

  /** The layout `validate` probes with: the image's own signature and the
      object's offset and track count before validation. */
  function ProbeLayout(image: seq<byte>, offset: nat, tracks: nat): Layout {
    Layout(image, Signature(image), offset, tracks)
  }

  /** The image starts with MFM_DISK and its track 20 passes the FT-Dos
      probe. */
  predicate ProbePasses(image: seq<byte>, offset: nat, tracks: nat) {
    var t := ReadTrack(ProbeLayout(image, offset, tracks), PROBE_TRACK, 0);
    Signature(image) == MFM_SIGNATURE && t.Ok? && DosProbe(t.value) == Ok(true)
  }

  /** A passing probe has read bytes of track 20, which lies far past the
      header, so the three header words are then always in the file. */
  lemma ProbeCoversHeader(image: seq<byte>, offset: nat, tracks: nat)
    requires ProbePasses(image, offset, tracks)
    ensures GEOMETRY_AT + 4 <= |image|
  {
    var l := ProbeLayout(image, offset, tracks);
    var t := ReadTrack(l, PROBE_TRACK, 0).value;
    var data := SectorData(t.raw, t.sectors[1]);
    assert |Slice(data, 246, 248)| > 0;
    assert |t.raw| > 0;
    assert TrackStart(l, PROBE_TRACK, 0) >= PROBE_TRACK * TRACK_SIZE;
  }

  /** `validate(diskimg)` on an image object whose data offset and track
      count are still `offset` and `tracks`: `Ok(None)` when the original
      returns None (wrong signature, or not an FT-Dos disk), an error where
      it raises. */
  function ValidateSpec(image: seq<byte>, offset: nat, tracks: nat): (r: Result<Option<DiskParams>>)
  {
    var signature := Signature(image);
    if signature != MFM_SIGNATURE then Ok(None)
    else
      var t :- ReadTrack(ProbeLayout(image, offset, tracks), PROBE_TRACK, 0);
      var isFtDos :- DosProbe(t);
      if !isFtDos then Ok(None)
      else
        var sides :- HeaderWord(image, SIDES_AT);
        var trackCount :- HeaderWord(image, TRACKS_AT);
        var geometry :- HeaderWord(image, GEOMETRY_AT);
        Ok(Some(DiskParams(FT_DOS, sides, trackCount, |t.sectors|, SECTOR_SIZE, geometry, DATA_OFFSET)))
  }

  /** An image is accepted exactly when it starts with MFM_DISK, its track
      20 (read at the current offset) passes the FT-Dos probe and the file
      holds the three header words; the parameters are then the header
      words, the number of sectors found on track 20, 256-byte sectors and
      the data offset 0x100. */
  lemma ValidateAccepts(image: seq<byte>, offset: nat, tracks: nat)
    ensures var l := ProbeLayout(image, offset, tracks);
      ValidateSpec(image, offset, tracks).Ok? && ValidateSpec(image, offset, tracks).value.Some?
      <==>
      && Signature(image) == MFM_SIGNATURE
      && ReadTrack(l, PROBE_TRACK, 0).Ok?
      && DosProbe(ReadTrack(l, PROBE_TRACK, 0).value) == Ok(true)
    ensures var l := ProbeLayout(image, offset, tracks);
      ValidateSpec(image, offset, tracks).Ok? && ValidateSpec(image, offset, tracks).value.Some? ==>
      var p := ValidateSpec(image, offset, tracks).value.value;
      && p.dos == FT_DOS && p.offset == DATA_OFFSET && p.sectorSize == SECTOR_SIZE
      && p.sectors == |ReadTrack(l, PROBE_TRACK, 0).value.sectors|
      && p.sides == LE32(image[8], image[9], image[10], image[11])
      && p.tracks == LE32(image[12], image[13], image[14], image[15])
      && p.geometry == LE32(image[16], image[17], image[18], image[19])
  {
    if ProbePasses(image, offset, tracks) {
      ProbeCoversHeader(image, offset, tracks);
    }
  }

  /** The image is rejected (None) exactly when its signature is wrong or
      the probe of track 20 reads a marker other than the FT-Dos one. */
  lemma ValidateRejects(image: seq<byte>, offset: nat, tracks: nat)
    ensures var l := ProbeLayout(image, offset, tracks);
      ValidateSpec(image, offset, tracks) == Ok(None)
      <==>
      || Signature(image) != MFM_SIGNATURE
      || (ReadTrack(l, PROBE_TRACK, 0).Ok? && DosProbe(ReadTrack(l, PROBE_TRACK, 0).value) == Ok(false))
  {
  }

  const SYS_NAMES: set<seq<byte>> := {Ascii("FTDOS3-2.SYS"), Ascii("TDOS2-26.SYS")}
  const BOOT_NAME: seq<byte> := Ascii("BOOTSECT.BIN")
  /** The system image is read from track 4 (ROM 1.0 layout). */
  const SYS_START_TRACK: nat := 4
  const SYS_LOAD: nat := 0xC000
  const SYS_EXEC: nat := 0xD4F8
  const BOOT_LOAD: nat := 0x400
  const BOOT_SIZE: nat := 256

  /** `read_file(name)` on a disk of `sectors` sectors per track whose
      catalog is `dirents`: the two DOS system names read the system image,
      BOOTSECT.BIN reads track 0 sector 1, and every other name goes
      through its FCB chain. */
  function ReadFileSpec(tracks: Tracks, sectors: nat, dirents: Dirents, name: seq<byte>): (r: Result<FileRecord>)
  {
    if name in SYS_NAMES then
      var sys :- GetSysSpec(tracks, SYS_START_TRACK, sectors);
      Ok(SysRecord(sys))
    else if name == BOOT_NAME then
      var boot :- SectorBytes(tracks, 0, 1);
      Ok(BootSector(boot, BOOT_LOAD, BOOT_SIZE))
    else
      ReadFileChain(tracks, dirents, name)
  }

  /** The record of the system image: all of it, loaded at 0xC000 and run
      at 0xD4F8. */
  function SysRecord(sys: seq<byte>): FileRecord {
    Loaded(sys, SYS_LOAD, |sys|, SYS_LOAD + |sys|, SYS_EXEC, TYPE_DATA)
  }

  /** The system names are served from the system tracks whatever the
      catalog says: the blocks of tracks 4-7 in order, loaded at 0xC000 and
      run at 0xD4F8, with a size that is the number of bytes read. */
  lemma SystemFileIsSystemImage(tracks: Tracks, sectors: nat, dirents: Dirents, other: Dirents, name: seq<byte>)
    requires name in SYS_NAMES
    ensures ReadFileSpec(tracks, sectors, dirents, name) == ReadFileSpec(tracks, sectors, other, name)
    ensures sectors >= 3 ==>
      (ReadFileSpec(tracks, sectors, dirents, name).Ok? <==> ReadSectors(tracks, SysBlocks(SYS_START_TRACK, sectors)).Ok?)
    ensures ReadFileSpec(tracks, sectors, dirents, name).Ok? ==>
      var rec := ReadFileSpec(tracks, sectors, dirents, name).value;
      && rec == Loaded(rec.bytes, SYS_LOAD, |rec.bytes|, SYS_LOAD + |rec.bytes|, SYS_EXEC, TYPE_DATA)
      && ReadSectors(tracks, SysBlocks(SYS_START_TRACK, sectors)) == Ok(rec.bytes)
      && (sectors >= 2 ==> rec.size <= 256 * (3 * sectors + 9))
  {
    GetSysReadsSysBlocks(tracks, SYS_START_TRACK, sectors);
  }

  /** BOOTSECT.BIN is track 0 sector 1, catalogued or not, loaded at 0x400
      with the nominal size of one sector. */
  lemma BootFileIsBootSector(tracks: Tracks, sectors: nat, dirents: Dirents)
    ensures ReadFileSpec(tracks, sectors, dirents, BOOT_NAME).Ok? <==> SectorBytes(tracks, 0, 1).Ok?
    ensures ReadFileSpec(tracks, sectors, dirents, BOOT_NAME).Ok? ==>
      ReadFileSpec(tracks, sectors, dirents, BOOT_NAME)
        == Ok(BootSector(SectorBytes(tracks, 0, 1).value, BOOT_LOAD, BOOT_SIZE))
      && |SectorBytes(tracks, 0, 1).value| <= BOOT_SIZE
  {
    assert BOOT_NAME !in SYS_NAMES by {
      assert BOOT_NAME[0] == 'B' as byte;
      assert Ascii("FTDOS3-2.SYS")[0] == 'F' as byte && Ascii("TDOS2-26.SYS")[0] == 'T' as byte;
    }
  }

  /** Every other name is read through its FCB chain, so a name missing from
      the catalog has no metadata. */
  lemma OtherFilesFollowTheirChain(tracks: Tracks, sectors: nat, dirents: Dirents, name: seq<byte>)
    requires name !in SYS_NAMES && name != BOOT_NAME
    ensures name !in dirents ==> ReadFileSpec(tracks, sectors, dirents, name) == Err(NoMetadata)
    ensures ReadFileSpec(tracks, sectors, dirents, name).Ok? ==>
      var rec := ReadFileSpec(tracks, sectors, dirents, name).value;
      && rec.Loaded? && |rec.bytes| <= rec.size && rec.end == rec.start + rec.size
      && var first := SectorBytes(tracks, dirents[name].track as nat, dirents[name].sector as nat);
      && first.Ok? && |first.value| >= FIRST_PAIR
      && var m := MetaOf(name, first.value);
      && rec.start == m.start && rec.size == m.size && rec.exec == m.exec && rec.fileType == m.fileType
  {
    if ReadFileSpec(tracks, sectors, dirents, name).Ok? {
      FirstFcbGivesMetadata(tracks, dirents, name, ReadFileSpec(tracks, sectors, dirents, name).value);
    }
  }

  /** `FTDOS_display_bitmap()`: the bitmap sector is track 20 sector 1. */
  const BITMAP_TRACK: nat := 20
  const BITMAP_SECTOR: nat := 1

  function DisplayBitmapSpec(tracks: Tracks, trackCount: nat, sides: nat): (r: Result<seq<string>>)
    ensures r.Ok? ==> |r.value| == trackCount
  {
    var raw :- SectorBytes(tracks, BITMAP_TRACK, BITMAP_SECTOR);
    Rendered(raw, trackCount, sides)
  }

  /** The bitmap renders exactly when its sector can be read and holds the
      three bytes of every (track, side) group, and then row `t` shows the
      groups `t`, `t + tracks`, ... of that sector. A sector has at most
      256 bytes, so no disk of more than 85 groups renders. */
  lemma BitmapOfDisk(tracks: Tracks, trackCount: nat, sides: nat)
    ensures DisplayBitmapSpec(tracks, trackCount, sides).Ok? <==>
      && SectorBytes(tracks, BITMAP_TRACK, BITMAP_SECTOR).Ok?
      && trackCount * sides <= |SectorBytes(tracks, BITMAP_TRACK, BITMAP_SECTOR).value| / 3
    ensures DisplayBitmapSpec(tracks, trackCount, sides).Ok? ==>
      && trackCount * sides <= 85
      && var raw := SectorBytes(tracks, BITMAP_TRACK, BITMAP_SECTOR).value;
      && 3 * (trackCount * sides) <= |raw|
      && DisplayBitmapSpec(tracks, trackCount, sides) == Ok(Rows(raw, trackCount, sides))
  {
    var sector := SectorBytes(tracks, BITMAP_TRACK, BITMAP_SECTOR);
    if sector.Ok? {
      var raw := sector.value;
      RenderedFailure(raw, trackCount, sides);
      if trackCount * sides <= |raw| / 3 {
        RenderedRows(raw, trackCount, sides);
      }
    }
  }
}
