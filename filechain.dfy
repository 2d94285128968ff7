/** `FTDOS_read_file` (src/ftdos.py:332-422): a file is a chain of file
    control blocks (FCBs), the first one named by the file's catalog entry.
    Bytes 0-1 of an FCB link to the next FCB (track 0xFF or sector 0 ends
    the chain); the first FCB also holds the load address (bytes 2-3) and
    the size (bytes 4-5); from byte 6 on, every FCB lists the (track,
    sector) pairs of the file's data blocks, up to the first pair with a
    0xFF byte. */
module FileChain {
  import opened Common
  import opened Image
  import opened Directory
  import opened Catalog

  const FIRST_PAIR: nat := 6
  /** The last offset at which a pair may start (`while n <= 254`). */
  const LAST_PAIR: nat := 254
  const NO_BLOCK: byte := 0xFF

  /** The Sedoric file types the reader derives. */
  const TYPE_BASIC: byte := 0x80
  const TYPE_DATA: byte := 0x40

  /** What the first FCB and the name say about a file. */
  datatype FileMeta = FileMeta(start: nat, size: nat, exec: nat, fileType: byte)

  /** What `read_file` returns. BOOTSECT.BIN's record has no end address,
      execution address or type in the original, hence its own shape. */
  datatype FileRecord =
    | Loaded(bytes: seq<byte>, start: nat, size: nat, end: nat, exec: nat, fileType: byte)
    | BootSector(bytes: seq<byte>, start: nat, size: nat)

  /** FTDOS 3.2 stores array and screen sizes one byte short: an ARY size is
      rounded up to even and an SCR size gets one more byte. */
  function CorrectedSize(name: seq<byte>, size: nat): (r: nat)
    ensures Last3(name) == EXT_ARY ==> r % 2 == 0 && size <= r <= size + 1
    ensures Last3(name) == EXT_SCR ==> r == size + 1
    ensures Last3(name) != EXT_ARY && Last3(name) != EXT_SCR ==> r == size
  {
    ExtensionsDistinct();
    if Last3(name) == EXT_ARY then size + size % 2
    else if Last3(name) == EXT_SCR then size + 1
    else size
  }

  /** Metadata from the first FCB, whose bytes 2-5 must be present. */
  function MetaOf(name: seq<byte>, fcb: seq<byte>): (m: FileMeta)
    requires |fcb| >= FIRST_PAIR
    ensures m.start == LE16(fcb[2], fcb[3]) && m.start < 0x1_0000
    ensures m.size == CorrectedSize(name, LE16(fcb[4], fcb[5]))
    ensures m.fileType == TYPE_BASIC <==> Last3(name) == EXT_BAS
    ensures m.fileType != TYPE_BASIC ==> m.fileType == TYPE_DATA
    ensures m.exec == (if Last3(name) in {EXT_CMD, EXT_SYS, EXT_BIN} then m.start else 0)
  {
    var start := LE16(fcb[2], fcb[3]);
    var ext := Last3(name);
    ExtensionsDistinct();
    FileMeta(
      start,
      CorrectedSize(name, LE16(fcb[4], fcb[5])),
      if ext != EXT_BAS && (ext == EXT_CMD || ext == EXT_SYS || ext == EXT_BIN) then start else 0,
      if ext == EXT_BAS then TYPE_BASIC else TYPE_DATA)
  }

  /** The first FCB's metadata, failing like `struct.unpack` on a block too
      short for the load address or the size. */
  function FirstMeta(name: seq<byte>, fcb: seq<byte>): (r: Result<FileMeta>)
    ensures r.Ok? <==> |fcb| >= FIRST_PAIR
    ensures r.Err? ==> r.error == ShortWord(if |fcb| < 4 then 2 else 4)
  {
    if |fcb| < 4 then Err(ShortWord(2))
    else if |fcb| < FIRST_PAIR then Err(ShortWord(4))
    else Ok(MetaOf(name, fcb))
  }

  /** The block list of an FCB from offset `n`: the pairs up to (not
      including) the first with a 0xFF byte, none from offset 256 on; a pair
      cut off by the end of the FCB fails. */
  function BlockPairs(fcb: seq<byte>, n: nat): (r: Result<seq<(nat, nat)>>)
    ensures r.Ok? && |r.value| > 0 ==> n + 2 * |r.value| <= |fcb| && n + 2 * |r.value| <= LAST_PAIR + 2
    ensures r.Ok? ==> forall k :: 0 <= k < |r.value| ==> r.value[k] == (fcb[n + 2 * k] as nat, fcb[n + 2 * k + 1] as nat)
    ensures r.Ok? ==> forall k :: 0 <= k < |r.value| ==> r.value[k].0 != NO_BLOCK as nat && r.value[k].1 != NO_BLOCK as nat
    decreases LAST_PAIR + 2 - n
  {
    if n > LAST_PAIR then Ok([])
    else if n >= |fcb| then Err(IndexOutOfRange(n))
    else if n + 1 >= |fcb| then Err(IndexOutOfRange(n + 1))
    else if fcb[n] == NO_BLOCK || fcb[n + 1] == NO_BLOCK then Ok([])
    else Prepend([(fcb[n] as nat, fcb[n + 1] as nat)], BlockPairs(fcb, n + 2))
  }

  /** The block list stops at offset 256 or at the first pair, wholly inside
      the FCB, that holds a 0xFF byte. */
  lemma {:induction false} BlockPairsStop(fcb: seq<byte>, n: nat)
    ensures BlockPairs(fcb, n).Ok? ==> var m := n + 2 * |BlockPairs(fcb, n).value|;
      m > LAST_PAIR || (m + 1 < |fcb| && (fcb[m] == NO_BLOCK || fcb[m + 1] == NO_BLOCK))
    decreases LAST_PAIR + 2 - n
  {
    if n <= LAST_PAIR && n + 1 < |fcb| && fcb[n] != NO_BLOCK && fcb[n + 1] != NO_BLOCK {
      BlockPairsStop(fcb, n + 2);
    }
  }

  /** The block list fails exactly when the pairs before offset 256 run
      past the end of the FCB with no 0xFF byte in a whole pair; the index
      reported is the first one missing. */
  lemma {:induction false} BlockPairsFailure(fcb: seq<byte>, n: nat)
    ensures BlockPairs(fcb, n).Err? ==>
      && BlockPairs(fcb, n).error == IndexOutOfRange(Max(n, |fcb|))
      && n <= LAST_PAIR && |fcb| <= LAST_PAIR + 1
      && forall k :: 0 <= k && n + 2 * k + 1 < |fcb| ==> fcb[n + 2 * k] != NO_BLOCK && fcb[n + 2 * k + 1] != NO_BLOCK
    decreases LAST_PAIR + 2 - n
  {
    if n <= LAST_PAIR && n + 1 < |fcb| && fcb[n] != NO_BLOCK && fcb[n + 1] != NO_BLOCK {
      BlockPairsFailure(fcb, n + 2);
      if BlockPairs(fcb, n).Err? {
        forall k | 0 <= k && n + 2 * k + 1 < |fcb| ensures fcb[n + 2 * k] != NO_BLOCK && fcb[n + 2 * k + 1] != NO_BLOCK {
          if k > 0 {
            assert n + 2 * (k - 1) + 2 == n + 2 * k;
          }
        }
      }
    }
  }

  /** The inner loop of the reader: pairs are taken and their blocks read
      one at a time, so a block that cannot be read fails before a later
      pair is looked at. */
  function FcbBlocks(tracks: Tracks, fcb: seq<byte>, n: nat): Result<seq<byte>>
    decreases LAST_PAIR + 2 - n
  {
    if n > LAST_PAIR then Ok([])
    else if n >= |fcb| then Err(IndexOutOfRange(n))
    else if n + 1 >= |fcb| then Err(IndexOutOfRange(n + 1))
    else if fcb[n] == NO_BLOCK || fcb[n + 1] == NO_BLOCK then Ok([])
    else
      var b :- SectorBytes(tracks, fcb[n] as nat, fcb[n + 1] as nat);
      Prepend(b, FcbBlocks(tracks, fcb, n + 2))
  }

  /** An FCB's data is its listed blocks concatenated in list order. */
  lemma {:induction false} FcbBlocksAreListedBlocks(tracks: Tracks, fcb: seq<byte>, n: nat)
    ensures FcbBlocks(tracks, fcb, n).Ok? <==> BlockPairs(fcb, n).Ok? && ReadSectors(tracks, BlockPairs(fcb, n).value).Ok?
    ensures FcbBlocks(tracks, fcb, n).Ok? ==> FcbBlocks(tracks, fcb, n) == ReadSectors(tracks, BlockPairs(fcb, n).value)
    decreases LAST_PAIR + 2 - n
  {
    if n <= LAST_PAIR && n + 1 < |fcb| && fcb[n] != NO_BLOCK && fcb[n + 1] != NO_BLOCK {
      FcbBlocksAreListedBlocks(tracks, fcb, n + 2);
      var pair := (fcb[n] as nat, fcb[n + 1] as nat);
      var rest := BlockPairs(fcb, n + 2);
      if rest.Ok? {
        assert BlockPairs(fcb, n).value == [pair] + rest.value;
        assert ([pair] + rest.value)[1..] == rest.value;
      }
    }
  }

  /** The FCB chain from `link`, having read the FCBs in `visited`, with
      the metadata `meta` of the first FCB once read and the `data` gathered
      so far. A link read a second time is a corrupt (cyclic) chain, on
      which the original loops forever. */
  function Chain(tracks: Tracks, name: seq<byte>, link: Link, visited: set<Link>, meta: Option<FileMeta>, data: seq<byte>)
    : (r: Result<(Option<FileMeta>, seq<byte>)>)
    ensures r.Ok? ==> data <= r.value.1
    ensures r.Ok? && meta.Some? ==> r.value.0 == meta
    ensures r.Ok? && !EndOfChain(link) ==> r.value.0.Some?
    decreases AllLinks() - visited
  {
    if EndOfChain(link) then Ok((meta, data))
    else if link in visited then Err(ChainCycle(link))
    else
      var fcb :- SectorBytes(tracks, link.0 as nat, link.1 as nat);
      if |fcb| < 2 then Err(IndexOutOfRange(|fcb|))
      else
        var m :- if meta.Some? then Ok(meta.value) else FirstMeta(name, fcb);
        var blocks :- FcbBlocks(tracks, fcb, FIRST_PAIR);
        LinkInAll(link);
        Chain(tracks, name, (fcb[0], fcb[1]), visited + {link}, Some(m), data + blocks)
  }

  /** `FTDOS_read_file(name)` against the catalog `dirents`. A name not in
      the catalog, or whose chain ends before its first FCB, leaves the
      execution address and type unbound in the original (an
      UnboundLocalError); here that is `NoMetadata`. */
  function ReadFileChain(tracks: Tracks, dirents: Dirents, name: seq<byte>): (r: Result<FileRecord>)
    ensures name !in dirents ==> r == Err(NoMetadata)
    ensures r.Ok? ==> r.value.Loaded? && |r.value.bytes| <= r.value.size && r.value.end == r.value.start + r.value.size
  {
    if name !in dirents then Err(NoMetadata)
    else
      var d := dirents[name];
      var walked :- Chain(tracks, name, (d.track, d.sector), {}, None, []);
      if walked.0.None? then Err(NoMetadata)
      else Ok(Record(walked.0.value, walked.1))
  }

  /** The record of a walked chain: its data cut to the recorded size. */
  function Record(m: FileMeta, data: seq<byte>): FileRecord {
    Loaded(Slice(data, 0, m.size), m.start, m.size, m.start + m.size, m.exec, m.fileType)
  }

  /** A catalogued file's record is the outcome of its chain walk. */
  lemma FinishChain(tracks: Tracks, dirents: Dirents, name: seq<byte>, walked: Result<(Option<FileMeta>, seq<byte>)>)
    requires name in dirents
    requires walked == Chain(tracks, name, (dirents[name].track, dirents[name].sector), {}, None, [])
    ensures walked.Err? ==> ReadFileChain(tracks, dirents, name) == Err(walked.error)
    ensures walked.Ok? && walked.value.0.None? ==> ReadFileChain(tracks, dirents, name) == Err(NoMetadata)
    ensures walked.Ok? && walked.value.0.Some? ==>
      ReadFileChain(tracks, dirents, name) == Ok(Record(walked.value.0.value, walked.value.1))
  {
  }

  /** The first step of a chain walk that starts with no metadata: it
      reads the first FCB, takes the metadata from it and goes on from that
      FCB's link with its blocks. */
  lemma ChainFirstStep(tracks: Tracks, name: seq<byte>, link: Link)
    requires !EndOfChain(link) && Chain(tracks, name, link, {}, None, []).Ok?
    ensures SectorBytes(tracks, link.0 as nat, link.1 as nat).Ok?
    ensures var fcb := SectorBytes(tracks, link.0 as nat, link.1 as nat).value;
      && |fcb| >= FIRST_PAIR && FcbBlocks(tracks, fcb, FIRST_PAIR).Ok?
      && Chain(tracks, name, link, {}, None, [])
         == Chain(tracks, name, (fcb[0], fcb[1]), {link}, Some(MetaOf(name, fcb)), FcbBlocks(tracks, fcb, FIRST_PAIR).value)
  {
    var fcb := SectorBytes(tracks, link.0 as nat, link.1 as nat).value;
    var blocks := FcbBlocks(tracks, fcb, FIRST_PAIR).value;
    assert {} + {link} == {link};
    assert [] + blocks == blocks;
  }

  /** The same first step, from a readable first FCB with its bytes 2-5
      and a readable block list. */
  lemma ChainFirstStepFrom(tracks: Tracks, name: seq<byte>, link: Link, fcb: seq<byte>, blocks: seq<byte>)
    requires !EndOfChain(link) && SectorBytes(tracks, link.0 as nat, link.1 as nat) == Ok(fcb)
    requires |fcb| >= FIRST_PAIR && FcbBlocks(tracks, fcb, FIRST_PAIR) == Ok(blocks)
    ensures Chain(tracks, name, link, {}, None, []) == Chain(tracks, name, (fcb[0], fcb[1]), {link}, Some(MetaOf(name, fcb)), blocks)
  {
    assert {} + {link} == {link};
    assert [] + blocks == blocks;
  }

  /** The metadata of a file read through its chain is that of its first
      FCB: load address from bytes 2-3, corrected size from bytes 4-5, and
      type and execution address from the name's extension. */
  lemma FirstFcbGivesMetadata(tracks: Tracks, dirents: Dirents, name: seq<byte>, rec: FileRecord)
    requires ReadFileChain(tracks, dirents, name) == Ok(rec)
    ensures name in dirents
    ensures var first := SectorBytes(tracks, dirents[name].track as nat, dirents[name].sector as nat);
      && first.Ok? && |first.value| >= FIRST_PAIR
      && var m := MetaOf(name, first.value);
      && rec == Loaded(rec.bytes, m.start, m.size, m.start + m.size, m.exec, m.fileType)
  {
    var link := (dirents[name].track, dirents[name].sector);
    ChainFirstStep(tracks, name, link);
  }

  /** The blocks listed in the first FCB open the file: the file bytes and
      those blocks agree up to the shorter of the two. */
  lemma FirstFcbBlocksComeFirst(tracks: Tracks, dirents: Dirents, name: seq<byte>, rec: FileRecord)
    requires ReadFileChain(tracks, dirents, name) == Ok(rec)
    ensures name in dirents
    ensures var first := SectorBytes(tracks, dirents[name].track as nat, dirents[name].sector as nat);
      && first.Ok? && FcbBlocks(tracks, first.value, FIRST_PAIR).Ok?
      && var blocks := FcbBlocks(tracks, first.value, FIRST_PAIR).value;
      && (rec.bytes <= blocks || blocks <= rec.bytes)
  {
    var link := (dirents[name].track, dirents[name].sector);
    ChainFirstStep(tracks, name, link);
    var data := Chain(tracks, name, link, {}, None, []).value.1;
    assert rec.bytes <= data;
  }

  /** The data gathered before a step of the walk only comes in front of
      what the rest of the walk reads: the outcome, failure included, is
      otherwise the same. */
  lemma {:induction false} ChainData(tracks: Tracks, name: seq<byte>, link: Link, visited: set<Link>, meta: Option<FileMeta>, data: seq<byte>)
    ensures var base := Chain(tracks, name, link, visited, meta, []);
      Chain(tracks, name, link, visited, meta, data) == if base.Ok? then Ok((base.value.0, data + base.value.1)) else base
    decreases AllLinks() - visited
  {
    if !EndOfChain(link) && link !in visited {
      var fcb := SectorBytes(tracks, link.0 as nat, link.1 as nat);
      if fcb.Ok? && |fcb.value| >= 2 {
        var m := if meta.Some? then Ok(meta.value) else FirstMeta(name, fcb.value);
        var blocks := FcbBlocks(tracks, fcb.value, FIRST_PAIR);
        if m.Ok? && blocks.Ok? {
          var next := (fcb.value[0], fcb.value[1]);
          LinkInAll(link);
          assert [] + blocks.value == blocks.value;
          ChainData(tracks, name, next, visited + {link}, Some(m.value), data + blocks.value);
          ChainData(tracks, name, next, visited + {link}, Some(m.value), blocks.value);
          var rest := Chain(tracks, name, next, visited + {link}, Some(m.value), []);
          if rest.Ok? {
            PrependPrepend(data, blocks.value, Ok(rest.value.1));
          }
        }
      }
    } else {
      assert data + [] == data;
    }
  }

  /** A file read through its chain is the blocks listed in its first FCB
      followed by what the walk reads from that FCB's link on, cut to the
      corrected size. */
  lemma FirstFcbThenRest(tracks: Tracks, dirents: Dirents, name: seq<byte>, rec: FileRecord)
    requires ReadFileChain(tracks, dirents, name) == Ok(rec)
    ensures name in dirents
    ensures var link := (dirents[name].track, dirents[name].sector);
      var first := SectorBytes(tracks, link.0 as nat, link.1 as nat);
      && first.Ok? && |first.value| >= FIRST_PAIR && FcbBlocks(tracks, first.value, FIRST_PAIR).Ok?
      && var fcb := first.value;
      && var m := MetaOf(name, fcb);
      && var rest := Chain(tracks, name, (fcb[0], fcb[1]), {link}, Some(m), []);
      && rest.Ok?
      && rec.bytes == Slice(FcbBlocks(tracks, fcb, FIRST_PAIR).value + rest.value.1, 0, m.size)
  {
    var link := (dirents[name].track, dirents[name].sector);
    ChainFirstStep(tracks, name, link);
    var fcb := SectorBytes(tracks, link.0 as nat, link.1 as nat).value;
    var blocks := FcbBlocks(tracks, fcb, FIRST_PAIR).value;
    ChainData(tracks, name, (fcb[0], fcb[1]), {link}, Some(MetaOf(name, fcb)), blocks);
  }

  /** A file whose first FCB ends the chain is that FCB's blocks, cut to the
      corrected size. */
  lemma SingleFcbFile(tracks: Tracks, dirents: Dirents, name: seq<byte>, fcb: seq<byte>, blocks: seq<byte>)
    requires name in dirents
    requires SectorBytes(tracks, dirents[name].track as nat, dirents[name].sector as nat) == Ok(fcb)
    requires !EndOfChain((dirents[name].track, dirents[name].sector))
    requires |fcb| >= FIRST_PAIR && EndOfChain((fcb[0], fcb[1]))
    requires FcbBlocks(tracks, fcb, FIRST_PAIR) == Ok(blocks)
    ensures var m := MetaOf(name, fcb);
      ReadFileChain(tracks, dirents, name)
        == Ok(Loaded(Slice(blocks, 0, m.size), m.start, m.size, m.start + m.size, m.exec, m.fileType))
  {
    var link := (dirents[name].track, dirents[name].sector);
    var m := MetaOf(name, fcb);
    assert Chain(tracks, name, (fcb[0], fcb[1]), {link}, Some(m), blocks) == Ok((Some(m), blocks));
    ChainFirstStepFrom(tracks, name, link, fcb, blocks);
    var walked := Chain(tracks, name, link, {}, None, []).value;
    assert walked == (Some(m), blocks);
  }

  /** An FCB that links to itself makes the read fail instead of looping. */
  lemma SelfLinkedChainFails(tracks: Tracks, dirents: Dirents, name: seq<byte>, fcb: seq<byte>)
    requires name in dirents
    requires SectorBytes(tracks, dirents[name].track as nat, dirents[name].sector as nat) == Ok(fcb)
    requires !EndOfChain((dirents[name].track, dirents[name].sector))
    requires |fcb| >= FIRST_PAIR && (fcb[0], fcb[1]) == (dirents[name].track, dirents[name].sector)
    requires FcbBlocks(tracks, fcb, FIRST_PAIR).Ok?
    ensures ReadFileChain(tracks, dirents, name) == Err(ChainCycle((fcb[0], fcb[1])))
  {
  }
}
