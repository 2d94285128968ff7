/** The disk image seen through `read_track` (src/ftdos.py:141-195): the
    6400-byte window of a track in the image file, its decoded sector map,
    the 256 bytes of one sector, and the header fields and DOS probe that
    `validate` reads (src/ftdos.py:76-139). */
module Image {
  import opened Common
  import opened TrackScan

  const MFM_SIGNATURE: seq<byte> := Ascii("MFM_DISK")

  /** What a track read depends on: the bytes of the image file and the
      image object's signature, data offset and track count. */
  datatype Layout = Layout(image: seq<byte>, signature: seq<byte>, offset: nat, tracks: nat)

  /** The result of `read_track`: the raw window and its sector map. */
  datatype Track = Track(raw: seq<byte>, sectors: SectorMap)

  /** File offset of a track: `offset + (side * tracks + track) * 6400`. */
  function TrackStart(l: Layout, track: nat, side: nat): nat {
    l.offset + (side * l.tracks + track) * TRACK_SIZE
  }

  /** `f.seek(start); f.read(6400)`: up to 6400 bytes from the track's
      offset, fewer (or none) where the file ends first. */
  function TrackWindow(l: Layout, track: nat, side: nat): (raw: seq<byte>)
    ensures |raw| <= TRACK_SIZE
    ensures TrackStart(l, track, side) + TRACK_SIZE <= |l.image| ==> |raw| == TRACK_SIZE
    ensures |raw| > 0 ==> TrackStart(l, track, side) + |raw| <= |l.image|
    ensures forall k :: 0 <= k < |raw| ==> raw[k] == l.image[TrackStart(l, track, side) + k]
  {
    var start := TrackStart(l, track, side);
    Slice(l.image, start, start + TRACK_SIZE)
  }

  /** `read_track(track, side)`. An image whose signature is not MFM_DISK
      yields an empty dictionary in the original, on which every caller
      fails; here that failure is `NotMfmImage`. */
  function ReadTrack(l: Layout, track: nat, side: nat): Result<Track>
  {
    if l.signature != MFM_SIGNATURE then Err(NotMfmImage)
    else
      var raw := TrackWindow(l, track, side);
      var sectors :- DecodeSpec(raw);
      Ok(Track(raw, sectors))
  }

  /** `track['sectors'][S]['data_ptr'] + 1` and the 256-byte slice after it:
      a sector number the scan did not find is the original's KeyError. */
  function SectorOf(t: Track, track: nat, number: nat): (r: Result<seq<byte>>)
    ensures r.Err? <==> !(number < 256 && number as byte in t.sectors)
    ensures r.Err? ==> r.error == MissingSector(track, number)
    ensures r.Ok? ==> |r.value| <= 256
  {
    if number < 256 && number as byte in t.sectors then Ok(SectorData(t.raw, t.sectors[number as byte]))
    else Err(MissingSector(track, number))
  }

  /** The side-0 track reads of an image. The catalog, file and system
      readers only ever read side 0, and they are stated against any such
      reader, so that what they do is seen apart from how a track decodes. */
  type Tracks = nat -> Result<Track>

  /** `read_track(track, 0)` on one image. */
  function Side0(l: Layout): Tracks {
    (track: nat) => ReadTrack(l, track, 0)
  }

  /** The bytes of sector `number` of a side-0 track, as every reader of the
      catalog and of files fetches them. */
  function SectorBytes(tracks: Tracks, track: nat, number: nat): Result<seq<byte>>
  {
    var t :- tracks(track);
    SectorOf(t, track, number)
  }

  /** The listed sectors' bytes concatenated in list order, each
      (track, sector) read on side 0; the first sector that cannot be read
      fails the whole read. */
  function ReadSectors(tracks: Tracks, blocks: seq<(nat, nat)>): (r: Result<seq<byte>>)
    ensures r.Ok? ==> |r.value| <= 256 * |blocks|
  {
    if blocks == [] then Ok([])
    else
      var b :- SectorBytes(tracks, blocks[0].0, blocks[0].1);
      Prepend(b, ReadSectors(tracks, blocks[1..]))
  }

  /** Reading two lists of sectors one after the other reads their
      concatenation: a failure in the first list is the failure of the
      whole, and otherwise the first list's bytes come in front of what the
      second list yields. */
  lemma {:induction false} ReadSectorsConcat(tracks: Tracks, a: seq<(nat, nat)>, b: seq<(nat, nat)>)
    ensures ReadSectors(tracks, a).Err? ==> ReadSectors(tracks, a + b) == ReadSectors(tracks, a)
    ensures ReadSectors(tracks, a).Ok? ==>
      ReadSectors(tracks, a + b) == Prepend(ReadSectors(tracks, a).value, ReadSectors(tracks, b))
  {
    if a == [] {
      assert a + b == b;
      PrependNothing(ReadSectors(tracks, b));
    } else {
      assert (a + b)[0] == a[0] && (a + b)[1..] == a[1..] + b;
      var first := SectorBytes(tracks, a[0].0, a[0].1);
      if first.Ok? {
        ReadSectorsConcat(tracks, a[1..], b);
        var rest := ReadSectors(tracks, a[1..]);
        if rest.Ok? {
          PrependPrepend(first.value, rest.value, ReadSectors(tracks, b));
        }
      }
    }
  }

  /** Where sector bytes may start in a track window: right after a data
      or ID mark below TRACK_SIZE, or at 0. */
  ghost predicate SectorStart(raw: seq<byte>, start: nat) {
    start == 0 || (start - 1 < TRACK_SIZE && start - 1 < |raw| && IsDataOrId(raw[start - 1]))
  }

  /** The bytes of a sector are the (up to) 256 bytes that follow an address
      mark of the track window, or, when the scan found no data field for
      that sector, the first 256 bytes of the window. */
  lemma SectorBytesFollowMark(l: Layout, track: nat, number: nat, data: seq<byte>)
    requires SectorBytes(Side0(l), track, number) == Ok(data)
    ensures exists start: nat ::
      (SectorStart(TrackWindow(l, track, 0), start) && data == Slice(TrackWindow(l, track, 0), start, start + 256))
  {
    var raw := TrackWindow(l, track, 0);
    var t := ReadTrack(l, track, 0).value;
    assert t.raw == raw && DecodeSpec(raw) == Ok(t.sectors);
    assert data == SectorData(raw, t.sectors[number as byte]);
    DecodeWellFormed(raw, t.sectors);
    EntryStart(raw, number as byte, t.sectors[number as byte]);
  }

  /** A well-formed entry's bytes start at a sector start. */
  lemma EntryStart(raw: seq<byte>, number: byte, sec: Sector)
    requires ValidEntry(raw, number, sec)
    ensures SectorStart(raw, DataStart(sec))
  {
  }

  /** The signature is the first eight bytes of the file (fewer when the
      file is shorter). */
  function Signature(image: seq<byte>): (r: seq<byte>)
    ensures |r| == Min(8, |image|) && r <= image
  {
    Slice(image, 0, 8)
  }

  /** The FT-Dos probe on a decoded track 20: bytes 246-247 of sector 1 are
      80 80 or 80 4D and bytes 0-1 of sector 2 are 00 00. Sector 2 is only
      looked up when the first test passes. */
  function DosProbe(t: Track): (r: Result<bool>)
    ensures r == Ok(true) <==>
      && 1 in t.sectors && 2 in t.sectors
      && Slice(SectorData(t.raw, t.sectors[1]), 246, 248) in {[0x80, 0x80], [0x80, 0x4D]}
      && Slice(SectorData(t.raw, t.sectors[2]), 0, 2) == [0x00, 0x00]
    ensures r.Err? <==>
      || 1 !in t.sectors
      || (2 !in t.sectors && Slice(SectorData(t.raw, t.sectors[1]), 246, 248) in {[0x80, 0x80], [0x80, 0x4D]})
  {
    var first :- SectorOf(t, 20, 1);
    var marker := Slice(first, 246, 248);
    if marker != [0x80, 0x80] && marker != [0x80, 0x4D] then Ok(false)
    else
      var second :- SectorOf(t, 20, 2);
      Ok(Slice(second, 0, 2) == [0x00, 0x00])
  }

  /** One little-endian 32-bit header word (`struct.unpack("<L", f.read(4))`):
      a read cut short by the end of the file is the original's struct.error. */
  function HeaderWord(image: seq<byte>, pos: nat): (r: Result<nat>)
    ensures r.Ok? <==> pos + 4 <= |image|
    ensures r.Err? ==> r.error == ShortWord(pos)
    ensures r.Ok? ==> r.value < 0x1_0000_0000 && r.value == LE32(image[pos], image[pos + 1], image[pos + 2], image[pos + 3])
  {
    if pos + 4 <= |image| then Ok(LE32(image[pos], image[pos + 1], image[pos + 2], image[pos + 3]))
    else Err(ShortWord(pos))
  }
}
