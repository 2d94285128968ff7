/** `FTDOS_DirEntry` (src/ftdos.py:291-330): the decoder of one 18-byte
    catalog record.

    Layout of a record: byte 0 track of the file's first FCB (0xFF marks an
    unused slot), byte 1 its sector, byte 2 the lock flag, bytes 3-14 the
    name (8 bytes, a separator byte, a 3-byte extension, all space-padded),
    byte 15 the file type and bytes 16-17 the size, little-endian. */
module Directory {
  import opened Common

  const RECORD_SIZE: nat := 18
  const UNUSED_TRACK: byte := 0xFF
  const DOT: byte := 0x2E
  const SPACE: byte := 0x20

  const EXT_BAS: seq<byte> := Ascii("BAS")
  const EXT_CMD: seq<byte> := Ascii("CMD")
  const EXT_SYS: seq<byte> := Ascii("SYS")
  const EXT_BIN: seq<byte> := Ascii("BIN")
  const EXT_ARY: seq<byte> := Ascii("ARY")
  const EXT_SCR: seq<byte> := Ascii("SCR")
  const EXT_DAT: seq<byte> := Ascii("DAT")
  const EXT_TXT: seq<byte> := Ascii("TXT")

  /** The `content_type` strings: basic, asm, array, lscreen, hscreen,
      data, text and ???. */
  datatype ContentKind = Basic | Asm | Array | LowResScreen | HighResScreen | Data | Text | Unknown

  /** The value stored under a record's raw 12-byte name. `side` is always 0
      in the original. */
  datatype DirEntry = DirEntry(
    displayName: seq<byte>,
    side: nat,
    track: byte,
    sector: byte,
    lock: byte,
    fileType: byte,
    size: nat,
    kind: ContentKind)

  /** The content kind from the last three bytes of the raw name; only SCR
      looks at the size. */
  function KindOf(name: seq<byte>, size: nat): ContentKind {
    var ext := Last3(name);
    if ext == EXT_BAS then Basic
    else if ext == EXT_CMD || ext == EXT_SYS || ext == EXT_BIN then Asm
    else if ext == EXT_ARY then Array
    else if ext == EXT_SCR then (if size == 6 then LowResScreen else HighResScreen)
    else if ext == EXT_DAT then Data
    else if ext == EXT_TXT then Text
    else Unknown
  }

  /** The extensions each content kind is given for: the inverse of KindOf. */
  function Extensions(k: ContentKind): set<seq<byte>> {
    match k
    case Basic => {EXT_BAS}
    case Asm => {EXT_CMD, EXT_SYS, EXT_BIN}
    case Array => {EXT_ARY}
    case LowResScreen => {EXT_SCR}
    case HighResScreen => {EXT_SCR}
    case Data => {EXT_DAT}
    case Text => {EXT_TXT}
    case Unknown => {}
  }

  /** The classification agrees with the extension table: a known kind is
      given exactly for its extensions (and, for the two screen kinds, for
      size 6 or any other size), and `???` exactly for the extensions no
      kind claims. */
  lemma KindMatchesExtensions(name: seq<byte>, size: nat)
    ensures var k := KindOf(name, size);
      && (k != Unknown ==> Last3(name) in Extensions(k))
      && (k == Unknown <==> forall j: ContentKind :: Last3(name) !in Extensions(j))
      && (k == LowResScreen <==> Last3(name) == EXT_SCR && size == 6)
      && (k == HighResScreen <==> Last3(name) == EXT_SCR && size != 6)
  {
    var ext := Last3(name);
    var k := KindOf(name, size);
    ExtensionsDistinct();
    if ext == EXT_BAS {
      assert k == Basic;
    } else if ext == EXT_CMD || ext == EXT_SYS || ext == EXT_BIN {
      assert k == Asm;
    } else if ext == EXT_ARY {
      assert k == Array;
    } else if ext == EXT_SCR {
      assert k == (if size == 6 then LowResScreen else HighResScreen);
    } else if ext == EXT_DAT {
      assert k == Data;
    } else if ext == EXT_TXT {
      assert k == Text;
    } else {
      assert k == Unknown;
      forall j: ContentKind ensures ext !in Extensions(j) {
        assert Extensions(j) <= {EXT_BAS, EXT_CMD, EXT_SYS, EXT_BIN, EXT_ARY, EXT_SCR, EXT_DAT, EXT_TXT};
      }
    }
  }

  /** The eight extension constants spelled out as bytes, which shows them
      pairwise different. */
  lemma ExtensionsDistinct()
    ensures EXT_BAS == [0x42, 0x41, 0x53] && EXT_CMD == [0x43, 0x4D, 0x44]
    ensures EXT_SYS == [0x53, 0x59, 0x53] && EXT_BIN == [0x42, 0x49, 0x4E]
    ensures EXT_ARY == [0x41, 0x52, 0x59] && EXT_SCR == [0x53, 0x43, 0x52]
    ensures EXT_DAT == [0x44, 0x41, 0x54] && EXT_TXT == [0x54, 0x58, 0x54]
  {
  }

  /** The name shown to the user: the 8-byte base and, when the 3-byte
      extension is not blank, a dot and the extension, each with trailing
      whitespace removed. The separator byte at position 8 is never shown. */
  function DisplayName(name: seq<byte>): (r: seq<byte>)
    requires |name| == 12
    ensures |r| <= 12
    ensures r == [] || !IsSpace(r[|r| - 1])
    ensures RStrip(name[..8]) <= r
  {
    var base := RStrip(name[..8]);
    var ext := RStrip(name[9..12]);
    if ext != [] then base + [DOT] + ext else base
  }

  /** `s` followed by spaces up to length `n`. */
  function Pad(s: seq<byte>, n: nat): (r: seq<byte>)
    requires |s| <= n
    ensures |r| == n && r[..|s|] == s
  {
    s + seq(n - |s|, _ => SPACE)
  }

  /** Stripping undoes padding for a word that does not end in whitespace. */
  lemma {:induction false} RStripPad(s: seq<byte>, n: nat)
    requires |s| <= n
    requires s == [] || !IsSpace(s[|s| - 1])
    ensures RStrip(Pad(s, n)) == s
    decreases n
  {
    if n > |s| {
      var p := Pad(s, n);
      assert p[..n - 1] == Pad(s, n - 1);
      assert IsSpace(p[n - 1]);
      RStripPad(s, n - 1);
    } else {
      assert Pad(s, n) == s;
    }
  }

  /** The name a catalog writer stores for `base.ext`: both parts padded
      with spaces and joined by a separator byte. */
  function RawName(base: seq<byte>, sep: byte, ext: seq<byte>): (r: seq<byte>)
    requires |base| <= 8 && |ext| <= 3
    ensures |r| == 12 && r[8] == sep
  {
    Pad(base, 8) + [sep] + Pad(ext, 3)
  }

  /** DisplayName inverts the padding: the displayed name of a padded name
      is `base`, or `base.ext` when the extension is not empty, whatever the
      separator byte. */
  lemma DisplayNameOfRawName(base: seq<byte>, sep: byte, ext: seq<byte>)
    requires |base| <= 8 && |ext| <= 3
    requires base == [] || !IsSpace(base[|base| - 1])
    requires ext == [] || !IsSpace(ext[|ext| - 1])
    ensures DisplayName(RawName(base, sep, ext)) == if ext == [] then base else base + [DOT] + ext
  {
    var name := RawName(base, sep, ext);
    assert name[..8] == Pad(base, 8);
    assert name[9..12] == Pad(ext, 3);
    RStripPad(base, 8);
    RStripPad(ext, 3);
  }

  /** `FTDOS_DirEntry(entry)`: `Ok(None)` for an unused slot (track byte
      0xFF), `Ok(Some((name, entry)))` keyed by the raw 12-byte name
      otherwise. A record shorter than 18 bytes fails at the first byte the
      original reads past its end (bytes 0, 1, 2, then 15), or in unpacking
      the size word when only bytes 16-17 are missing. */
  function ParseDirEntry(e: seq<byte>): (r: Result<Option<(seq<byte>, DirEntry)>>)
    ensures r.Err? <==> |e| < RECORD_SIZE
    ensures r.Err? ==> r.error == (if |e| < 3 then IndexOutOfRange(|e|)
                                   else if |e| < 16 then IndexOutOfRange(15)
                                   else ShortWord(16))
    ensures r.Ok? ==> (r.value.None? <==> e[0] == UNUSED_TRACK)
    ensures r.Ok? && r.value.Some? ==>
      var (name, d) := r.value.value;
      && name == e[3..15]
      && d.track == e[0] && d.sector == e[1] && d.lock == e[2] && d.fileType == e[15]
      && d.size == LE16(e[16], e[17]) && d.side == 0
      && d.displayName == DisplayName(name) && d.kind == KindOf(name, d.size)
  {
    if |e| < 3 then Err(IndexOutOfRange(|e|))
    else if |e| < 16 then Err(IndexOutOfRange(15))
    else if |e| < RECORD_SIZE then Err(ShortWord(16))
    else if e[0] == UNUSED_TRACK then Ok(None)
    else
      var name := e[3..15];
      var size := LE16(e[16], e[17]);
      Ok(Some((name, DirEntry(DisplayName(name), 0, e[0], e[1], e[2], e[15], size, KindOf(name, size)))))
  }

  /** The 18 bytes a record with these fields occupies on disk. */
  function EncodeDirEntry(track: byte, sector: byte, lock: byte, name: seq<byte>, fileType: byte, size: nat): (e: seq<byte>)
    requires |name| == 12 && size < 0x1_0000
    ensures |e| == RECORD_SIZE
  {
    [track, sector, lock] + name + [fileType, (size % 256) as byte, (size / 256) as byte]
  }

  /** Decoding an encoded record gives back its fields, with the display
      name and content kind derived from the raw name. */
  lemma ParseEncoded(track: byte, sector: byte, lock: byte, name: seq<byte>, fileType: byte, size: nat)
    requires |name| == 12 && size < 0x1_0000 && track != UNUSED_TRACK
    ensures ParseDirEntry(EncodeDirEntry(track, sector, lock, name, fileType, size))
      == Ok(Some((name, DirEntry(DisplayName(name), 0, track, sector, lock, fileType, size, KindOf(name, size)))))
  {
    var e := EncodeDirEntry(track, sector, lock, name, fileType, size);
    assert e[3..15] == name;
    var w := LE16(e[16], e[17]);
    assert w % 256 == size % 256 && w / 256 == size / 256;
  }

  /** Every used 18-byte record is the encoding of the entry decoded from it. */
  lemma EncodeParsed(e: seq<byte>)
    requires |e| == RECORD_SIZE && e[0] != UNUSED_TRACK
    ensures ParseDirEntry(e).Ok? && ParseDirEntry(e).value.Some?
    ensures var (name, d) := ParseDirEntry(e).value.value;
      EncodeDirEntry(d.track, d.sector, d.lock, name, d.fileType, d.size) == e
  {
    EncodeFields(e);
  }

  /** An 18-byte record is the encoding of its own fields. */
  lemma EncodeFields(e: seq<byte>)
    requires |e| == RECORD_SIZE
    ensures EncodeDirEntry(e[0], e[1], e[2], e[3..15], e[15], LE16(e[16], e[17])) == e
  {
    var e' := EncodeDirEntry(e[0], e[1], e[2], e[3..15], e[15], LE16(e[16], e[17]));
    forall k | 0 <= k < RECORD_SIZE
      ensures e'[k] == e[k]
    {
      if 3 <= k < 15 {
        assert e'[k] == e[3..15][k - 3];
      }
    }
  }
}
