/** Byte-level vocabulary shared by every part of the FTDOS model: bytes,
    the Option/Result wrappers used for the decoder's failure paths, Python
    slicing (which clamps instead of failing), little-endian words and the
    whitespace stripping the catalog applies to names. */
module Common {

  newtype byte = x: int | 0 <= x < 256

  /** A (track, sector) pair as stored in the catalog and FCB chains. */
  type Link = (byte, byte)

  /** Every possible link: a finite set, so a chain walk that never revisits
      a link terminates. */
  ghost function AllLinks(): set<Link> {
    set t: byte, s: byte :: (t, s)
  }

  lemma LinkInAll(l: Link)
    ensures l in AllLinks()
  {
    assert (l.0, l.1) in AllLinks();
  }

  datatype Option<+T> = None | Some(value: T)

  /** Every way a decoding step can fail. In the original these are Python
      exceptions (IndexError, KeyError, struct.error, UnboundLocalError) that
      abort the whole operation; the cycle errors are added by the model. */
  datatype DiskError =
    | NotMfmImage                              // read_track on an image whose signature check failed
    | IndexOutOfRange(pos: nat)                // a byte read at or past the end of a buffer
    | MissingSector(track: nat, sector: nat)   // a sector number absent from a decoded track
    | ShortWord(pos: nat)                      // a little-endian word (struct.unpack) cut off by the end of its buffer
    | NoMetadata                               // read_file on a name with no first FCB
    | CatalogCycle(link: Link)                 // the catalog chain came back to a sector it had read
    | ChainCycle(at: Link)                     // an FCB chain came back to a sector it had read

  datatype Result<+T> = Ok(value: T) | Err(error: DiskError) {
    predicate IsFailure() { Err? }

    function PropagateFailure<U>(): Result<U>
      requires Err?
    {
      Err(error)
    }

    function Extract(): T
      requires Ok?
    {
      value
    }
  }

  /** A result whose successful value has `done` in front of it: the state
      of a loop that has already produced `done` and still has `rest` to run. */
  function Prepend<T>(done: seq<T>, rest: Result<seq<T>>): (r: Result<seq<T>>)
    ensures rest.Err? ==> r == rest
    ensures rest.Ok? ==> r.Ok? && r.value == done + rest.value
  {
    match rest
    case Ok(s) => Ok(done + s)
    case Err(e) => Err(e)
  }

  lemma PrependNothing<T>(x: Result<seq<T>>)
    ensures Prepend([], x) == x
  {
    if x.Ok? {
      assert [] + x.value == x.value;
    }
  }

  lemma PrependEmpty<T>(done: seq<T>)
    ensures Prepend(done, Ok([])) == Ok(done)
  {
    assert done + [] == done;
  }

  /** Producing `a` and then `b` is producing `a + b`. */
  lemma PrependPrepend<T>(a: seq<T>, b: seq<T>, rest: Result<seq<T>>)
    ensures Prepend(a, Prepend(b, rest)) == Prepend(a + b, rest)
  {
    if rest.Ok? {
      assert a + (b + rest.value) == (a + b) + rest.value;
    }
  }

  function Min(a: int, b: int): int { if a <= b then a else b }

  function Max(a: int, b: int): int { if a <= b then b else a }

  /** Python's `s[i:j]` for non-negative bounds: out-of-range bounds are
      clamped to the length, and an empty range gives the empty sequence. */
  function Slice<T>(s: seq<T>, i: nat, j: nat): (r: seq<T>)
    ensures |r| == if j <= i || |s| <= i then 0 else Min(j, |s|) - i
    ensures |r| > 0 ==> i + |r| <= |s|
    ensures forall k :: 0 <= k < |r| ==> r[k] == s[i + k]
  {
    var lo := Min(i, |s|);
    var hi := Max(lo, Min(j, |s|));
    s[lo..hi]
  }

  /** The ASCII bytes of a literal. */
  function Ascii(s: string): (r: seq<byte>)
    requires forall k :: 0 <= k < |s| ==> s[k] as int < 256
    ensures |r| == |s|
  {
    seq(|s|, k requires 0 <= k < |s| => s[k] as int as byte)
  }

  /** Python's `s[-3:]`: the last three bytes, or all of a shorter sequence. */
  function Last3(s: seq<byte>): (r: seq<byte>)
    ensures |s| >= 3 ==> |r| == 3 && s == s[..|s| - 3] + r
    ensures |s| < 3 ==> r == s
  {
    if |s| >= 3 then s[|s| - 3..] else s
  }

  /** Little-endian unsigned 16-bit word (`struct.unpack('<H', ...)`). */
  function LE16(lo: byte, hi: byte): (r: nat)
    ensures r < 0x1_0000
    ensures r % 256 == lo as nat && r / 256 == hi as nat
  {
    lo as nat + 256 * hi as nat
  }

  /** Little-endian unsigned 32-bit word (`struct.unpack('<L', ...)`). */
  function LE32(b0: byte, b1: byte, b2: byte, b3: byte): (r: nat)
    ensures r < 0x1_0000_0000
  {
    var lo, hi := LE16(b0, b1), LE16(b2, b3);
    assert 0x1_0000 * hi <= 0x1_0000 * 0xFFFF;
    lo + 0x1_0000 * hi
  }

  function Pow2(n: nat): (r: nat)
    ensures r >= 1
  {
    if n == 0 then 1 else 2 * Pow2(n - 1)
  }

  /** `b & 2**j == 2**j`: bit `j` of `b` is set. */
  predicate Bit(b: byte, j: nat) {
    (b as nat / Pow2(j)) % 2 == 1
  }

  /** The bytes Python 2's `str.isspace` accepts: tab, line feed, vertical
      tab, form feed, carriage return and space. */
  predicate IsSpace(b: byte) {
    b == 32 || 9 <= b <= 13
  }

  /** Python's `s.rstrip()`: the longest prefix of `s` that does not end in
      whitespace. */
  function RStrip(s: seq<byte>): (r: seq<byte>)
    ensures r <= s
    ensures r == [] || !IsSpace(r[|r| - 1])
    ensures forall k :: |r| <= k < |s| ==> IsSpace(s[k])
  {
    if s == [] || !IsSpace(s[|s| - 1]) then s else RStrip(s[..|s| - 1])
  }
}
