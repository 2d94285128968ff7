/** `FTDOS_getsys` (src/ftdos.py:424-451): the DOS system image is read
    from four consecutive tracks on side 0: sectors 3 to `sectors` of the
    start track, 1 to `sectors` of the next two, and 1 to 11 of the fourth.
    Each track is read before any of its sectors, so an unreadable track
    fails the read even when its sector range is empty. */
module SysImage {
  import opened Common
  import opened Image

  /** Sectors `first..last` (inclusive) of one track. */
  datatype Run = Run(track: nat, first: nat, last: nat)

  /** The four runs of the system image from `startTrack`, for a disk of
      `sectors` sectors per track. */
  function SysRuns(startTrack: nat, sectors: nat): (runs: seq<Run>)
    ensures |runs| == 4
    ensures forall k :: 0 <= k < 4 ==> runs[k].track == startTrack + k
  {
    [Run(startTrack, 3, sectors), Run(startTrack + 1, 1, sectors),
     Run(startTrack + 2, 1, sectors), Run(startTrack + 3, 1, 11)]
  }

  /** The (track, sector) pairs of a run, in ascending sector order. */
  function RunBlocks(run: Run): (blocks: seq<(nat, nat)>)
    ensures |blocks| == if run.first <= run.last then run.last - run.first + 1 else 0
    ensures forall k :: 0 <= k < |blocks| ==> blocks[k] == (run.track, run.first + k)
  {
    if run.first <= run.last then seq(run.last - run.first + 1, k => (run.track, run.first + k)) else []
  }

  /** The pairs of several runs, run after run. */
  function Blocks(runs: seq<Run>): seq<(nat, nat)> {
    if runs == [] then [] else RunBlocks(runs[0]) + Blocks(runs[1..])
  }

  /** The blocks of the system image, track-major and sector-ascending. */
  function SysBlocks(startTrack: nat, sectors: nat): seq<(nat, nat)> {
    Blocks(SysRuns(startTrack, sectors))
  }

  /** The image has `sectors - 2` blocks from the first track (none when
      there are fewer than 3 sectors), `sectors` from each of the next two
      and 11 from the last: `3 * sectors + 9` for any disk of two or more
      sectors per track. */
  lemma SysBlockCount(startTrack: nat, sectors: nat)
    ensures |SysBlocks(startTrack, sectors)| == Max(0, sectors - 2) + 2 * sectors + 11
    ensures sectors >= 2 ==> |SysBlocks(startTrack, sectors)| == 3 * sectors + 9
  {
    var runs := SysRuns(startTrack, sectors);
    var r1, r2, r3 := runs[1..], runs[1..][1..], runs[1..][1..][1..];
    assert r3[1..] == [];
    assert |Blocks(r3)| == 11;
    assert |Blocks(r2)| == sectors + 11;
    assert |Blocks(r1)| == 2 * sectors + 11;
    assert |RunBlocks(runs[0])| == Max(0, sectors - 2);
  }

  /** The bytes of sectors `s..last` of a decoded track, in order. */
  function TrackSectors(t: Track, track: nat, s: nat, last: nat): (r: Result<seq<byte>>)
    decreases last + 1 - s
  {
    if s > last then Ok([])
    else
      var b :- SectorOf(t, track, s);
      Prepend(b, TrackSectors(t, track, s + 1, last))
  }

  /** One run: its track is read first, then its sectors. */
  function ReadRun(tracks: Tracks, run: Run): Result<seq<byte>> {
    var t :- tracks(run.track);
    TrackSectors(t, run.track, run.first, run.last)
  }

  /** The runs one after the other, their bytes concatenated. */
  function ReadRuns(tracks: Tracks, runs: seq<Run>): Result<seq<byte>> {
    if runs == [] then Ok([])
    else
      var b :- ReadRun(tracks, runs[0]);
      Prepend(b, ReadRuns(tracks, runs[1..]))
  }

  /** `FTDOS_getsys(startTrack)` on a disk of `sectors` sectors per track. */
  function GetSysSpec(tracks: Tracks, startTrack: nat, sectors: nat): Result<seq<byte>> {
    ReadRuns(tracks, SysRuns(startTrack, sectors))
  }

  /** One run of a list, then the runs after it. */
  lemma ReadRunsStep(tracks: Tracks, runs: seq<Run>, k: nat)
    requires k < |runs|
    ensures ReadRun(tracks, runs[k]).Err? ==> ReadRuns(tracks, runs[k..]) == Err(ReadRun(tracks, runs[k]).error)
    ensures ReadRun(tracks, runs[k]).Ok? ==>
      ReadRuns(tracks, runs[k..]) == Prepend(ReadRun(tracks, runs[k]).value, ReadRuns(tracks, runs[k + 1..]))
  {
    assert runs[k..][0] == runs[k] && runs[k..][1..] == runs[k + 1..];
  }

  /** Reading a run's sectors from its decoded track is reading each of its
      blocks on its own. */
  lemma {:induction false} TrackSectorsAreBlocks(tracks: Tracks, t: Track, track: nat, s: nat, last: nat)
    requires tracks(track) == Ok(t)
    ensures TrackSectors(t, track, s, last) == ReadSectors(tracks, RunBlocks(Run(track, s, last)))
    decreases last + 1 - s
  {
    var blocks := RunBlocks(Run(track, s, last));
    if s <= last {
      TrackSectorsAreBlocks(tracks, t, track, s + 1, last);
      assert blocks[0] == (track, s);
      assert blocks[1..] == RunBlocks(Run(track, s + 1, last));
    } else {
      assert blocks == [];
    }
  }

  /** A run that reads at least one sector. */
  predicate NonEmpty(run: Run) {
    run.first <= run.last
  }

  /** Reading runs is reading their blocks, except that an unreadable track
      also fails a run that has no sectors to read. */
  lemma {:induction false} ReadRunsAreBlocks(tracks: Tracks, runs: seq<Run>)
    requires ReadRuns(tracks, runs).Ok? || forall k :: 0 <= k < |runs| ==> NonEmpty(runs[k])
    ensures ReadRuns(tracks, runs) == ReadSectors(tracks, Blocks(runs))
  {
    if runs != [] {
      var run := runs[0];
      var blocks := RunBlocks(run);
      ReadSectorsConcat(tracks, blocks, Blocks(runs[1..]));
      var t := tracks(run.track);
      if t.Ok? {
        TrackSectorsAreBlocks(tracks, t.value, run.track, run.first, run.last);
        if TrackSectors(t.value, run.track, run.first, run.last).Ok? {
          assert forall k :: 1 <= k < |runs| ==> runs[1..][k - 1] == runs[k];
          ReadRunsAreBlocks(tracks, runs[1..]);
        }
      } else {
        assert NonEmpty(runs[0]);
        assert blocks[0] == (run.track, run.first);
      }
    }
  }

  /** The system image is the system blocks read one by one and
      concatenated in track-major, sector-ascending order; on a disk of
      three or more sectors per track (where every run reads a sector) it
      fails exactly when one of those blocks cannot be read. */
  lemma GetSysReadsSysBlocks(tracks: Tracks, startTrack: nat, sectors: nat)
    ensures GetSysSpec(tracks, startTrack, sectors).Ok? || sectors >= 3 ==>
      GetSysSpec(tracks, startTrack, sectors) == ReadSectors(tracks, SysBlocks(startTrack, sectors))
    ensures GetSysSpec(tracks, startTrack, sectors).Ok? && sectors >= 2 ==>
      |GetSysSpec(tracks, startTrack, sectors).value| <= 256 * (3 * sectors + 9)
  {
    var runs := SysRuns(startTrack, sectors);
    if GetSysSpec(tracks, startTrack, sectors).Ok? || sectors >= 3 {
      assert sectors >= 3 ==> forall k :: 0 <= k < |runs| ==> NonEmpty(runs[k]);
      ReadRunsAreBlocks(tracks, runs);
    }
    SysBlockCount(startTrack, sectors);
  }
}
