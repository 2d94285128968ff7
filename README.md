# FT-DOS disk image reader, modelled in Dafny

This project models the core of `src/ftdos.py`, a reader for Oric FT-DOS floppy images stored in the `MFM_DISK` format. It models these parts:

- **Tracks.** The image file is a 256-byte header followed by raw MFM tracks of 6400 bytes each. A track read takes the 6400-byte window of one track from the image. It then scans the window for ID address marks (0xFE), each followed by a data mark (0xFB, or the next 0xFE). The result is a map from sector number to the positions of those two marks.
- **Validation.** `validate` checks the `MFM_DISK` signature. It then probes track 20 for the FT-DOS markers (bytes 246-247 of sector 1 and bytes 0-1 of sector 2). Last, it takes the side count, track count and geometry from the header as little-endian 32-bit words.
- **Catalog.** The catalog is a chain of sectors that starts at track 20, sector 2. Each catalog sector holds 14 directory records of 18 bytes. Each record gives a raw 12-byte name, the first file control block (FCB), a lock flag, a type, a size and a content kind derived from the extension.
- **Files.** A file is a chain of FCBs. The first FCB gives the load address and the size. The size is corrected for ARY and SCR files. The type and execution address come from the extension. Every FCB lists (track, sector) blocks, and the file is their concatenation cut to the size.
- **Special files.** The two system file names (`FTDOS3-2.SYS`, `TDOS2-26.SYS`) return the system image assembled from tracks 4-7. `BOOTSECT.BIN` returns track 0, sector 1.
- **Bitmap.** The allocation bitmap is rendered as one text row per track.

How the Dafny files map to the source:

- `track.dfy` holds the scan loop of `read_track`: a method with its loops and invariants. It is proved equal to a specification function, `DecodeSpec`. That function is the last-wins map of the sequence of marks the scan visits (`Marks`).
- `image.dfy` holds the track window, the sector lookup and the probe predicates.
- `directory.dfy` holds the record decoder.
- `catalog.dfy` holds the catalog walk.
- `filechain.dfy` holds the FCB chain reader.
- `sysimage.dfy` holds the system image.
- `bitmap.dfy` holds the bitmap renderer. Its loop method is proved equal to a fold, and the fold is proved equal to a closed description of each row.
- `reader.dfy` holds `validate` and the `read_file` dispatch as functions of the image bytes.
- `disk.dfy` holds the `ftdos` class, `Disk.Ftdos`. Its fields are the ones `validate` and `read_dir` update. Its methods carry the source's loops and are proved equal to the specification functions above.

Error conditions are modelled as the `Err` case of a `Result`. They stand for the exceptions the original raises, and each kind is one `DiskError` variant:

| Original exception | Error case |
|---|---|
| IndexError from a read past the end of a short buffer | `IndexOutOfRange` |
| KeyError from a sector number the scan did not find | `MissingSector` |
| A failing `struct.unpack` | `ShortWord` |

The error cases follow the code in these places:

- **Missing data field.** A sector whose data field was not found keeps the original's `data_ptr = -1` (modelled as `None`). Its bytes are then read from offset 0 of the track window: the original's `offset = data_ptr + 1` is 0, so `raw[offset:offset + 256]` is `raw[0:256]`.
- **Probe offset.** `validate` probes track 20 with the object's offset and track count as they are before validation. On a fresh object these are 0 and 41. The offset becomes 0x100 only once the probe has passed.
- **Bitmap byte order.** The bitmap shows bit 0 of byte `3P+2`, then bits 7..0 of byte `3P+1`, then bits 7..0 of byte `3P`. In Python, `b & 2**j == 2**j` parses as `(b & 2**j) == 2**j`, so a glyph is `.` exactly when its bit is set.
- **Cycle guard (an addition).** Neither chain walk has a cycle guard in the original, so a catalog or FCB chain that links back to itself loops forever. The model keeps the set of links already read. A link read a second time ends the walk with `CatalogCycle` or `ChainCycle`.

## Model

| member | source | states |
|---|---|---|
| TrackScan.Marks | src/ftdos.py:159-190 | The sequence of (ID mark, data field) positions the scan visits from a cursor; its shape is stated by TrackScan.MarksWellFormed |
| TrackScan.ScanFrom | src/ftdos.py:159-190 | The scan from a cursor as a recursive function; TrackScan.ScanFollowsMarks relates it to the visited marks |
| TrackScan.DecodeSpec | src/ftdos.py:155-193 | The sector map of a track window; TrackScan.DecodeKeepsLastMarks and TrackScan.DecodeWellFormed state what it holds, and TrackScan.Decode is proved equal to it |
| TrackScan.SeekId | src/ftdos.py:160-164 | The position found holds an ID mark (0xFE) and no byte between the start and it is one; reaching 6400 means no mark; running off a short buffer before 6400 is the IndexError at the buffer's end |
| TrackScan.SeekData | src/ftdos.py:181-185 | The position found holds 0xFB or 0xFE, and no byte before it (from the start) holds either; past 6400 means no data field; a short buffer fails at its end |
| TrackScan.SkipToIdMark | src/ftdos.py:160-161 | The cursor loop that looks for an ID mark finds exactly the position SeekId describes, or fails the same way |
| TrackScan.SkipToDataMark | src/ftdos.py:181-182 | The cursor loop that looks for a data field finds exactly the position SeekData describes |
| TrackScan.Step | src/ftdos.py:166-190 | Handling one ID mark always moves the cursor strictly forward, which is why the scan terminates |
| TrackScan.RecordSector | src/ftdos.py:166-190 | One pass of the outer loop body records the sector and moves the cursor as one scan step does |
| TrackScan.Decode | src/ftdos.py:155-193 | The nested scan loops compute the sector map of the specification, errors included |
| TrackScan.ScanFollowsMarks | src/ftdos.py:159-190 | Scanning from any cursor fails exactly when the sequence of visited marks fails, and otherwise inserts those marks into the map in visiting order |
| TrackScan.DecodeKeepsLastMarks | src/ftdos.py:159-193 | The decoded map is the map built from the visited marks with each later mark overwriting an earlier one of the same sector number; it fails exactly when the mark sequence does |
| TrackScan.MarksWellFormed | src/ftdos.py:159-190 | Every visited mark is an ID mark below 6400 whose sector number and size code are the bytes 3 and 4 after it, with a data field at least 7 bytes on that is 0xFB or 0xFE below 6400; marks come in cursor order, each next ID mark at or past the previous data mark plus `(1<<(n+7))+3`, and only the last may lack a data field |
| TrackScan.ToMapLastWins | src/ftdos.py:170-172 | The map holds exactly the sector numbers of the visited marks, each with the positions of the last mark that carried it |
| TrackScan.DecodeWellFormed | src/ftdos.py:159-190 | Every entry of a decoded track has its ID field on a 0xFE below 6400 whose byte 3 is the key, and a data field either absent or on 0xFB/0xFE in [id+7, 6400); an entry without a data field has the highest ID position of the map |
| TrackScan.FullTrackFailsOnlyAtTheEnd | src/ftdos.py:166-176 | On a window of the full 6400 bytes the scan can fail only when an ID mark sits in the last four positions, where its sector number or size code lies past the end |
| TrackScan.SectorData | src/ftdos.py:265-266 | A sector's bytes are at most 256 bytes copied from one past its data mark (from 0 when there is none), exactly 256 when the window holds them |
| Image.TrackWindow | src/ftdos.py:150-153 | A track read takes up to 6400 bytes starting at `offset + (side*tracks + track)*6400`, all 6400 when the file holds them, each equal to the file's byte |
| Image.ReadTrack | src/ftdos.py:141-195 | A track read is the decoded sector map of the track window; Disk.Ftdos.ReadTrack is proved equal to it and TrackScan.DecodeWellFormed states what the map holds |
| Image.SectorOf | src/ftdos.py:265-266 | Looking up a sector fails with a missing-sector error exactly when the scan found no sector of that number; otherwise it gives at most 256 bytes |
| Image.ReadSectors | src/ftdos.py:419-420 | Reading a block list yields at most 256 bytes per block |
| Image.ReadSectorsConcat | src/ftdos.py:419-420 | Reading two block lists one after the other is reading their concatenation: the first list's failure is the whole's, and otherwise its bytes come first |
| Image.SectorBytesFollowMark | src/ftdos.py:265-266 | The bytes of any readable sector are the up-to-256 bytes that follow an address mark below 6400 in the track window, or the first 256 bytes of the window |
| Image.Signature | src/ftdos.py:83 | The signature is the first 8 bytes of the file, fewer when the file is shorter |
| Image.DosProbe | src/ftdos.py:91-100 | The probe accepts exactly when sector 1's bytes 246-247 are 80 80 or 80 4D and sector 2's bytes 0-1 are 00 00; it fails (KeyError) exactly when sector 1 is missing, or when the first test passes and sector 2 is missing |
| Image.HeaderWord | src/ftdos.py:108-110 | A header word is read exactly when four bytes are there, as the little-endian 32-bit value of those bytes |
| Reader.ValidateSpec | src/ftdos.py:76-139 | The verdict of `validate` on an image; stated by Reader.ValidateAccepts and Reader.ValidateRejects |
| Reader.ReadFileSpec | src/ftdos.py:216-234 | The dispatch of `read_file` on the name; stated by Reader.SystemFileIsSystemImage, Reader.BootFileIsBootSector and Reader.OtherFilesFollowTheirChain |
| Reader.ProbeCoversHeader | src/ftdos.py:91-110 | A disk that passes the probe always holds the three header words, because track 20 lies past them |
| Reader.ValidateAccepts | src/ftdos.py:85-120 | An image is accepted exactly when it has the MFM_DISK signature and track 20 passes the FT-DOS probe; it then reports FT-Dos, offset 0x100, 256-byte sectors, the number of sectors found on track 20, and sides, tracks and geometry read little-endian at offsets 8, 12 and 16 |
| Reader.ValidateRejects | src/ftdos.py:85-132 | An image is rejected (None) exactly when the signature is wrong or track 20 reads but fails the marker tests |
| Reader.SystemFileIsSystemImage | src/ftdos.py:217-224 | The two system names give the system image whatever the catalog holds: the blocks of tracks 4-7 in order, loaded at 0xC000, run at 0xD4F8, of type 0x40, with size the number of bytes read and end = start + size, at most 256*(3*sectors+9) bytes |
| Reader.BootFileIsBootSector | src/ftdos.py:226-231 | BOOTSECT.BIN is readable exactly when track 0 sector 1 is, and is that sector's bytes (at most 256) loaded at 0x400 with size 256 |
| Reader.OtherFilesFollowTheirChain | src/ftdos.py:233-234 | Any other name not in the catalog fails; a name that reads gives a loaded record whose start, size, type and exec come from its first FCB, with no more bytes than the size and end = start + size |
| Reader.DisplayBitmapSpec | src/ftdos.py:453-492 | The bitmap display has one row per track |
| Reader.BitmapOfDisk | src/ftdos.py:453-492 | The bitmap displays exactly when track 20 sector 1 reads and holds three bytes for every one of the tracks*sides groups (so at most 85 groups); the rows are then the closed description Bitmap.Rows of that sector |
| Directory.KindOf | src/ftdos.py:309-326 | The content kind of a name and size; stated by Directory.KindMatchesExtensions |
| Directory.KindMatchesExtensions | src/ftdos.py:309-326 | The content kind depends only on the last three name bytes: each known kind is given exactly for its extensions (SCR splitting into low-res iff size 6 and high-res otherwise), and unknown exactly for extensions no kind claims |
| Directory.DisplayName | src/ftdos.py:296-300 | The display name starts with the stripped 8-byte base, is at most 12 bytes and never ends in whitespace |
| Directory.RStripPad | src/ftdos.py:297-298 | Stripping trailing whitespace undoes space padding of a word that does not itself end in whitespace |
| Directory.DisplayNameOfRawName | src/ftdos.py:296-300 | The display name of a space-padded `base`/`ext` pair is `base`, or `base.ext` when the extension is not empty, whatever the separator byte |
| Directory.ParseDirEntry | src/ftdos.py:291-330 | A record fails exactly when shorter than 18 bytes, at the first byte the original reads past its end; a track byte 0xFF yields no entry; otherwise the entry is keyed by bytes 3-14 and carries track, sector, lock, type, little-endian size of bytes 16-17, side 0, the display name and the kind |
| Directory.ParseEncoded | src/ftdos.py:291-330 | Decoding an encoded used record gives back all of its fields |
| Directory.EncodeParsed | src/ftdos.py:291-330 | Every used 18-byte record is the encoding of the entry decoded from it |
| Catalog.RecordAt | src/ftdos.py:284-285 | Record i of a catalog sector is the 18 bytes at offset 4+18i, fewer where the sector ends first |
| Catalog.AddRecords | src/ftdos.py:283-287 | Decoding the 14 records of a catalog sector succeeds exactly when the sector holds all 14 records (256 bytes suffice) |
| Catalog.AddRecordsKeys | src/ftdos.py:283-287 | After a catalog sector, a name is listed exactly when it was listed before or some used record of the sector carries it |
| Catalog.AddRecordsLastWins | src/ftdos.py:283-287 | A name carried by a record of the sector maps to the entry of the last record that carries it |
| Catalog.Walk | src/ftdos.py:262-287 | The catalog loop from a link, with the set of links already read; stated by Catalog.WalkReadsSectors and Catalog.WalkWellFormed |
| Catalog.ListFiles | src/ftdos.py:255-289 | The catalog from track 20, sector 2; stated by Catalog.CatalogNames, Catalog.CatalogLastWins and Catalog.ListedFilesAreUsed |
| Catalog.CatalogSectors | src/ftdos.py:262-281 | The catalog sectors the walk reads, in chain order: each at least 256 bytes, the first the sector at the starting link, none exactly when the starting link ends the chain; a sector too short for its link or records fails as the walk does |
| Catalog.CatalogSectorsLinked | src/ftdos.py:262-281 | Each catalog sector read is the sector named by bytes 2-3 of the one before, and bytes 2-3 of the last one end the chain |
| Catalog.SectorEntriesAt | src/ftdos.py:283-287 | Record j of catalog sector k is decoded at position 14k+j of the records of the whole catalog |
| Catalog.WalkReadsSectors | src/ftdos.py:262-287 | The catalog walk fails exactly as reading its sectors does, and otherwise inserts the records of all its sectors in chain order and then record order |
| Catalog.ListFilesInsertsSectors | src/ftdos.py:255-289 | The catalog lists the records of its sectors inserted in chain order and then record order |
| Catalog.SectorNames | src/ftdos.py:283-287 | Inserting the records of complete sectors lists a name exactly when some used record of some sector carries it |
| Catalog.SectorLastWins | src/ftdos.py:283-287 | Inserting the records of complete sectors gives a name the entry of the last used record that carries it |
| Catalog.CatalogNames | src/ftdos.py:255-289 | When the catalog sectors read, the catalog is listed and holds a name exactly when some used record of some catalog sector carries it |
| Catalog.CatalogLastWins | src/ftdos.py:255-289 | A listed name maps to the entry of the last record carrying it, last in chain order and then record order, across all catalog sectors |
| Catalog.AddRecordsWellFormed | src/ftdos.py:283-287 | Adding a sector's records keeps every listed entry a used record: a 12-byte name and a first-FCB track other than 0xFF |
| Catalog.WalkWellFormed | src/ftdos.py:262-287 | The catalog walk from any link keeps every listed entry a used record |
| Catalog.ListedFilesAreUsed | src/ftdos.py:255-289 | The catalog never lists a record whose track byte is 0xFF, and every listed name is 12 bytes |
| Catalog.SingleSectorCatalog | src/ftdos.py:255-289 | A catalog whose first sector (track 20, sector 2) links to an end of chain lists exactly the names of that sector's used records |
| Catalog.SelfLinkedCatalogFails | src/ftdos.py:262-280 | A first catalog sector that links back to itself ends with a cycle error instead of looping |
| FileChain.CorrectedSize | src/ftdos.py:376-379 | ARY sizes are rounded up to even, SCR sizes grow by one, all other sizes are kept |
| FileChain.MetaOf | src/ftdos.py:368-390 | The load address is the little-endian word at bytes 2-3 of the FCB and the size the corrected word at bytes 4-5; the type is 0x80 exactly for BAS and 0x40 otherwise; exec is the load address for CMD/SYS/BIN and 0 otherwise |
| FileChain.FirstMeta | src/ftdos.py:370-371 | The metadata is read exactly when the FCB holds its first six bytes, and otherwise fails on the word that is cut short |
| FileChain.BlockPairs | src/ftdos.py:403-411 | The blocks of an FCB are its byte pairs from the start offset, in order, none holding 0xFF, never past offset 255; where the list stops is stated by FileChain.BlockPairsStop and its failure by FileChain.BlockPairsFailure |
| FileChain.BlockPairsStop | src/ftdos.py:403-411 | A block list that reads stops at offset 256 or at the first pair, wholly inside the FCB, holding a 0xFF byte |
| FileChain.BlockPairsFailure | src/ftdos.py:403-411 | A block list fails only when the pairs before offset 256 run past the end of the FCB with no 0xFF byte in any whole pair, and the error names the first missing index |
| FileChain.FcbBlocks | src/ftdos.py:403-420 | The pair loop of one FCB, reading each block as its pair is taken; stated by FileChain.FcbBlocksAreListedBlocks |
| FileChain.FcbBlocksAreListedBlocks | src/ftdos.py:403-420 | The pair loop of an FCB succeeds exactly when its block list is complete and every listed block reads, and then gives the listed blocks' bytes in pair order |
| FileChain.Chain | src/ftdos.py:347-420 | The chain walk only appends to the bytes gathered, keeps the metadata of the first FCB once read, and has metadata after any FCB |
| FileChain.ChainData | src/ftdos.py:347-420 | The bytes gathered before a step of the FCB walk only come in front of what the rest of the walk reads; the outcome, failure included, is otherwise unchanged |
| FileChain.Record | src/ftdos.py:422 | The file record built from the first FCB's metadata and the gathered bytes cut to the size; stated by FileChain.FinishChain and FileChain.FirstFcbThenRest |
| FileChain.ReadFileChain | src/ftdos.py:332-422 | A name not in the catalog fails; a file that reads has no more bytes than its size and end = start + size |
| FileChain.FinishChain | src/ftdos.py:339-347 | The file record is the chain walk's outcome, the first FCB's metadata and the bytes cut to its size; a chain that is terminal at once has no metadata and fails |
| FileChain.FirstFcbGivesMetadata | src/ftdos.py:364-390 | A file that reads takes its start, size, end, exec and type from the first FCB of its catalog entry, and from no later FCB |
| FileChain.FirstFcbBlocksComeFirst | src/ftdos.py:403-422 | The bytes of a file that reads start with the blocks of its first FCB, or are a prefix of them |
| FileChain.FirstFcbThenRest | src/ftdos.py:347-422 | The bytes of a file that reads are the blocks of its first FCB followed by what the walk reads from that FCB's link on, cut to the corrected size |
| FileChain.SingleFcbFile | src/ftdos.py:347-422 | A file of one FCB is its listed blocks cut to the corrected size, with the first FCB's start, exec and type |
| FileChain.SelfLinkedChainFails | src/ftdos.py:347-365 | An FCB that links to itself ends with a cycle error instead of looping |
| SysImage.TrackSectors | src/ftdos.py:440-442 | The sectors of one run read from a decoded track; stated by SysImage.TrackSectorsAreBlocks |
| SysImage.ReadRun | src/ftdos.py:433-442 | One run of the system image: its track read, then its sectors; stated by SysImage.TrackSectorsAreBlocks and SysImage.ReadRunsAreBlocks |
| SysImage.GetSysSpec | src/ftdos.py:424-451 | The system image from a start track; stated by SysImage.GetSysReadsSysBlocks |
| SysImage.SysRuns | src/ftdos.py:431-447 | The system image is read as four runs, one per track from the start track on |
| SysImage.RunBlocks | src/ftdos.py:440-442 | A run lists the sectors first..last of its track in ascending order |
| SysImage.SysBlockCount | src/ftdos.py:431-449 | The system image spans sectors-2 blocks of the first track, all sectors of the next two and 11 of the fourth: 3*sectors+9 blocks |
| SysImage.TrackSectorsAreBlocks | src/ftdos.py:440-442 | Reading a run's sectors from its decoded track is reading its block list |
| SysImage.ReadRunsAreBlocks | src/ftdos.py:431-449 | Reading runs track by track is reading their concatenated block list, in track-major, sector-ascending order |
| SysImage.GetSysReadsSysBlocks | src/ftdos.py:424-451 | The system image is the bytes of its 3*sectors+9 blocks in order, so at most 256 bytes per block |
| Bitmap.Hex2RoundTrip | src/ftdos.py:475 | The two upper-case hex digits printed for a byte read back as that byte |
| Bitmap.DecimalRoundTrip | src/ftdos.py:464 | The decimal track number in a row header reads back as the number |
| Bitmap.Glyphs | src/ftdos.py:477-490 | The 17 glyphs of a group; stated by Bitmap.GlyphAt |
| Bitmap.GroupText | src/ftdos.py:472-490 | The text a group adds to its row; stated by Bitmap.GroupLine |
| Bitmap.Fill | src/ftdos.py:466-490 | The group loop as a fold over the groups; stated by Bitmap.FillFrom and Bitmap.FillFailure |
| Bitmap.Rendered | src/ftdos.py:453-492 | The rows of the bitmap display; stated by Bitmap.RenderedRows and Bitmap.RenderedFailure |
| Bitmap.GlyphAt | src/ftdos.py:477-490 | A group shows 17 glyphs; glyph g is `.` exactly when the high byte is below 0x80 and its bit is set (bit 0 of the high byte, then bits 7..0 of the middle, then of the low byte), and `*` otherwise |
| Bitmap.GroupGlyphs | src/ftdos.py:477-490 | The glyph loops produce the 17 glyphs of a group |
| Bitmap.ByteGlyphs | src/ftdos.py:485-490 | The bit loop over one byte adds its eight glyphs, bit 7 first |
| Bitmap.HeaderRows | src/ftdos.py:462-464 | The first loop produces one header per track |
| Bitmap.GroupLine | src/ftdos.py:466-490 | One pass of the group loop produces the separator (for groups of side 1), the three bytes in hex and the glyphs |
| Bitmap.Render | src/ftdos.py:462-492 | The loops of the bitmap display compute the specified rows, or fail at the first group whose bytes are cut short |
| Bitmap.RowOfGroup | src/ftdos.py:473-475 | Group p is appended to row t exactly when t is p mod tracks |
| Bitmap.RowsBelowStep | src/ftdos.py:466-490 | Adding group p appends its text to row p mod tracks and leaves every other row as it was |
| Bitmap.FillFrom | src/ftdos.py:466-490 | The group loop turns the headers into rows where row t is its header followed by the texts of groups t, t+tracks, t+2*tracks, ... in order |
| Bitmap.RenderedRows | src/ftdos.py:462-492 | When the sector holds three bytes for every group, the display is exactly that closed description of its rows |
| Bitmap.FillFailure | src/ftdos.py:466-470 | The group loop fails exactly when some group's bytes lie past the data, at the high byte of the first such group |
| Bitmap.RenderedFailure | src/ftdos.py:466-470 | The display fails exactly when the sector holds fewer than tracks*sides three-byte groups |
| Common.RStrip | src/ftdos.py:297-298 | Stripping removes the longest whitespace suffix (Python 2 whitespace bytes): a prefix that does not end in whitespace, with only whitespace after it |
| Common.LE16 | src/ftdos.py:303 | A little-endian 16-bit word is below 65536 with the first byte as its low byte and the second as its high byte |
| Common.Slice | src/ftdos.py:266 | A Python slice clamps its bounds to the sequence and copies the bytes in between |
| Disk.Ftdos.constructor | src/ftdos.py:54-74 | A new object has an empty catalog, the MFM_DISK signature, offset 0, 2 sides, 41 tracks, 17 sectors of 256 bytes, geometry 1 and no DOS name |
| Disk.Ftdos.Validate | src/ftdos.py:76-139 | `validate` records the signature, returns the probe's verdict and, when the disk is accepted, takes its parameters; otherwise the parameters and the catalog are left as they were |
| Disk.Ftdos.SetParams | src/ftdos.py:102-110 | The accepted parameters replace the object's and nothing else changes |
| Disk.Ftdos.Probe | src/ftdos.py:85-120 | The probe computes the validation verdict of the image at the object's current offset and track count |
| Disk.Ftdos.ReadTrack | src/ftdos.py:141-195 | `read_track` is the track window and its decoded sector map, or fails on a non-MFM object |
| Disk.Ftdos.ReadSector | src/ftdos.py:263-266 | A track read and a sector lookup give the sector's bytes |
| Disk.Ftdos.AddSectorRecords | src/ftdos.py:283-287 | The record loop of a catalog sector adds its 14 records as specified |
| Disk.Ftdos.Cat | src/ftdos.py:255-289 | The catalog loop lists the files of the specified catalog walk, so a name is listed exactly when some used record of some catalog sector carries it, with the entry of the last such record (Catalog.CatalogNames, Catalog.CatalogLastWins) |
| Disk.Ftdos.ReadDir | src/ftdos.py:211-214 | `read_dir` replaces the object's catalog with the catalog read and returns it |
| Disk.Ftdos.FcbData | src/ftdos.py:403-420 | The pair loop of one FCB gathers the bytes of its listed blocks |
| Disk.Ftdos.WalkChain | src/ftdos.py:347-420 | The FCB loop walks the chain as specified, keeping the first FCB's metadata |
| Disk.Ftdos.ReadChain | src/ftdos.py:332-422 | `FTDOS_read_file` gives the record of the specified chain walk |
| Disk.Ftdos.RunSectors | src/ftdos.py:440-442 | The sector loop of one system track gathers its sectors' bytes in ascending order |
| Disk.Ftdos.ReadRunOf | src/ftdos.py:433-442 | One track of the system image is read, then its sectors |
| Disk.Ftdos.GetSys | src/ftdos.py:424-451 | `FTDOS_getsys` gathers the four runs of the system image in order |
| Disk.Ftdos.ReadFile | src/ftdos.py:216-234 | `read_file` dispatches on the name as specified: system names, the boot sector, then the FCB chain |
| Disk.Ftdos.DisplayBitmap | src/ftdos.py:252-253 | `display_bitmap` renders the bitmap sector for the object's tracks and sides |

## Left out

- `main` (src/ftdos.py:496-613) is left out. It covers argument parsing, file selection by pattern, output files and the tape/Orix headers it writes. These are command-line and file I/O concerns.
- `dump`, `FILTER` and `eprint` (src/ftdos.py:33-49) are left out. They only produce diagnostic text.
- All `print` and verbose branches are left out. This covers the failure dumps in `validate`, the dump of the bitmap sector and the verbose block of `FTDOS_read_file`, including its print-only `exec_addr == 0x40` test.
- `_cat` (src/ftdos.py:236-250) is left out. It only prints the catalog.
- `read_diskname` (src/ftdos.py:197-209) is left out. It is not used by any modelled operation.
- Opening, seeking and reading the image file are not modelled. The image is the file's byte sequence.
  - A short read is a shorter window, and every read past it is an error.
  - The IOError path of `validate`, which clears the source path, is not modelled.
- Every exception becomes a `DiskError`:
  - a non-MFM object's empty track dictionary becomes `NotMfmImage`;
  - the unbound `exec_addr`/`type` of a file without FCBs becomes `NoMetadata`;
  - the TypeError of `ord` on an empty slice in the bitmap becomes `IndexOutOfRange` at that group's high byte.

  Python's exception classes and messages are not modelled.
- The `last_track_read` cache of `FTDOS_read_file` is not modelled. Every block reads its track afresh, which gives the same bytes because the image does not change.
- `Disk.Ftdos`: the `source`, `diskname`, `dostype`, `disktype`, `crc`, `trackbuf`, `ptr_track`, `diskimg` and `verbose` fields are left out. No modelled operation reads them.
- Reader.DisplayBitmapSpec: only the number of rows is stated on the function itself. The contents of the rows are stated by Reader.BitmapOfDisk and Bitmap.RenderedRows.
- FileChain.ReadFileChain: its own contract states the failure on unknown names and the size bound. The metadata and the bytes are stated by FileChain.FirstFcbGivesMetadata, FileChain.FirstFcbThenRest and FileChain.SingleFcbFile.
