/** `FTDOS_display_bitmap` (src/ftdos.py:453-492): the allocation bitmap
    in the data of track 20, sector 1, rendered as text. There is one row
    per track, `Track NN: `; group `P` of three bitmap bytes (bytes 3P,
    3P+1 and 3P+2) is appended to row `P % tracks`, preceded by ` : ` when
    it belongs to a later side. A group shows its three bytes in hex, most
    significant first, then 17 glyphs: `.` for a set bit and `*` for a clear
    one, over bit 0 of byte 3P+2, bits 7..0 of byte 3P+1 and bits 7..0 of
    byte 3P; when byte 3P+2 is 0x80 or more all 17 glyphs are `*`. */
module Bitmap {
  import opened Common

  const GLYPHS_PER_GROUP: nat := 17
  /** The glyphs of a group whose high byte is 0x80 or more. */
  const ALL_CLEAR: string := "* * * * * * * * * * * * * * * * * "
  const SIDE_SEPARATOR: string := " : "

  function HexDigit(d: nat): (c: char)
    requires d < 16
    ensures '0' <= c <= '9' || 'A' <= c <= 'F'
  {
    if d < 10 then ('0' as int + d) as char else ('A' as int + d - 10) as char
  }

  /** `'%02X' % b`: two upper-case hex digits. */
  function Hex2(b: byte): (s: string)
    ensures |s| == 2
  {
    [HexDigit(b as nat / 16), HexDigit(b as nat % 16)]
  }

  function HexValue(c: char): nat {
    if '0' <= c <= '9' then c as nat - '0' as nat
    else if 'A' <= c <= 'F' then c as nat - 'A' as nat + 10
    else 0
  }

  /** The two hex digits read back give the byte. */
  lemma Hex2RoundTrip(b: byte)
    ensures 16 * HexValue(Hex2(b)[0]) + HexValue(Hex2(b)[1]) == b as nat
  {
  }

  function DigitChar(d: nat): char
    requires d < 10
  {
    ('0' as int + d) as char
  }

  /** `'%d' % n`. */
  function Decimal(n: nat): (s: string)
    ensures |s| >= 1 && (n >= 10 ==> |s| >= 2)
    ensures forall k :: 0 <= k < |s| ==> '0' <= s[k] <= '9'
    decreases n
  {
    if n < 10 then [DigitChar(n)] else Decimal(n / 10) + [DigitChar(n % 10)]
  }

  /** The number a string of decimal digits stands for. */
  function DecimalValue(s: string): nat {
    if s == [] then 0 else 10 * DecimalValue(s[..|s| - 1]) + HexValue(s[|s| - 1])
  }

  lemma {:induction false} DecimalRoundTrip(n: nat)
    ensures DecimalValue(Decimal(n)) == n
    decreases n
  {
    if n >= 10 {
      DecimalRoundTrip(n / 10);
      var s := Decimal(n);
      assert s[..|s| - 1] == Decimal(n / 10);
    }
  }

  /** `'%02d' % n`: at least two digits, zero-padded. */
  function Dec2(n: nat): (s: string)
    ensures |s| >= 2
  {
    if n < 10 then "0" + Decimal(n) else Decimal(n)
  }

  /** `'Track %02d: ' % t`. */
  function Header(t: nat): string {
    "Track " + Dec2(t) + ": "
  }

  /** The bit glyph `g` of a group shows: bit 0 of the high byte, then bits
      7..0 of the middle byte, then bits 7..0 of the low byte. */
  predicate GlyphBit(high: byte, middle: byte, low: byte, g: nat)
    requires g < GLYPHS_PER_GROUP
  {
    if g == 0 then Bit(high, 0)
    else if g <= 8 then Bit(middle, 8 - g)
    else Bit(low, 16 - g)
  }

  function Glyph(isSet: bool): string {
    if isSet then ". " else "* "
  }

  /** The first `g` glyphs of a group whose high byte is below 0x80. */
  function GlyphPrefix(high: byte, middle: byte, low: byte, g: nat): (s: string)
    requires g <= GLYPHS_PER_GROUP
    ensures |s| == 2 * g
  {
    if g == 0 then "" else GlyphPrefix(high, middle, low, g - 1) + Glyph(GlyphBit(high, middle, low, g - 1))
  }

  /** The 17 glyphs of a group. */
  function Glyphs(high: byte, middle: byte, low: byte): string {
    if high >= 0x80 then ALL_CLEAR else GlyphPrefix(high, middle, low, GLYPHS_PER_GROUP)
  }

  lemma {:induction false} GlyphPrefixAt(high: byte, middle: byte, low: byte, g: nat, k: nat)
    requires k < g <= GLYPHS_PER_GROUP
    ensures GlyphPrefix(high, middle, low, g)[2 * k] == (if GlyphBit(high, middle, low, k) then '.' else '*')
    ensures GlyphPrefix(high, middle, low, g)[2 * k + 1] == ' '
  {
    if k < g - 1 {
      GlyphPrefixAt(high, middle, low, g - 1, k);
    }
  }

  /** Glyph `g` of a group is `.` exactly when the high byte is below 0x80
      and the glyph's bit is set, and every glyph is followed by a space. */
  lemma GlyphAt(high: byte, middle: byte, low: byte, g: nat)
    requires g < GLYPHS_PER_GROUP
    ensures |Glyphs(high, middle, low)| == 2 * GLYPHS_PER_GROUP
    ensures Glyphs(high, middle, low)[2 * g] == '.' <==> high < 0x80 && GlyphBit(high, middle, low, g)
    ensures Glyphs(high, middle, low)[2 * g + 1] == ' '
  {
    if high < 0x80 {
      GlyphPrefixAt(high, middle, low, GLYPHS_PER_GROUP, g);
    } else {
      AllClearAt(g);
    }
  }

  /** The all-clear text shows `*` for every glyph. */
  lemma AllClearAt(g: nat)
    requires g < GLYPHS_PER_GROUP
    ensures |ALL_CLEAR| == 2 * GLYPHS_PER_GROUP && ALL_CLEAR[2 * g] == '*' && ALL_CLEAR[2 * g + 1] == ' '
  {
    assert forall k :: 0 <= k < GLYPHS_PER_GROUP ==> ALL_CLEAR[2 * k] == '*' && ALL_CLEAR[2 * k + 1] == ' ';
  }

  /** The text group `p` adds to its row; its three bytes must exist. */
  function GroupText(raw: seq<byte>, tracks: nat, p: nat): string
    requires 3 * p + 2 < |raw|
  {
    var high, middle, low := raw[3 * p + 2], raw[3 * p + 1], raw[3 * p];
    (if p >= tracks then SIDE_SEPARATOR else "")
      + Hex2(high) + " " + Hex2(middle) + " " + Hex2(low) + " "
      + Glyphs(high, middle, low)
  }

  /** The loops of the original that follow the high byte's bit 0: bits
      7..0 of the middle byte, then bits 7..0 of the low byte. */
  method GroupGlyphs(high: byte, middle: byte, low: byte) returns (s: string)
    ensures s == Glyphs(high, middle, low)
  {
    if high >= 0x80 {
      return ALL_CLEAR;
    }
    s := Glyph(Bit(high, 0));
    var later := [middle, low];
    for i := 0 to 2
      invariant s == GlyphPrefix(high, middle, low, 1 + 8 * i)
    {
      s := ByteGlyphs(high, middle, low, i, later[i], s);
    }
  }

  /** The innermost loop: the glyphs of bits 7..0 of byte `b`, the middle
      byte when `i` is 0 and the low byte when it is 1. */
  method ByteGlyphs(high: byte, middle: byte, low: byte, i: nat, b: byte, s0: string) returns (s: string)
    requires i < 2 && b == (if i == 0 then middle else low)
    requires s0 == GlyphPrefix(high, middle, low, 1 + 8 * i)
    ensures s == GlyphPrefix(high, middle, low, 9 + 8 * i)
  {
    ghost var base := 1 + 8 * i;
    s := s0;
    var j := 8;
    while j > 0
      invariant 0 <= j <= 8
      invariant s == GlyphPrefix(high, middle, low, base + (8 - j))
    {
      j := j - 1;
      assert GlyphBit(high, middle, low, base + 7 - j) == Bit(b, j);
      s := s + Glyph(Bit(b, j));
    }
  }

  /** The rows before any group: one header per track. */
  function Headers(tracks: nat): (rows: seq<string>)
    ensures |rows| == tracks
  {
    seq(tracks, t requires 0 <= t < tracks => Header(t))
  }

  /** The row group `p` goes to. */
  function RowOf(tracks: nat, p: nat): (t: nat)
    requires tracks > 0
    ensures t < tracks
  {
    p % tracks
  }

  /** Groups `p..total-1` appended to their rows, where `total` is
      `tracks * sides` and `texts` holds the text of every group whose three
      bytes are in the data. The bytes of a group are taken with one-byte
      slices and `ord`, which fails on the empty slice past the end of the
      data; the high byte 3P+2 is taken first, and it is past the end
      exactly when group P is not among `texts` (HighByteCut). */
  function Fill(texts: seq<string>, tracks: nat, total: nat, p: nat, rows: seq<string>): (r: Result<seq<string>>)
    requires p <= total && |rows| == tracks && (tracks > 0 || total == 0)
    ensures r.Ok? ==> |r.value| == tracks
    decreases total - p
  {
    if p == total then Ok(rows)
    else if p >= |texts| then Err(IndexOutOfRange(3 * p + 2))
    else
      var t := RowOf(tracks, p);
      Fill(texts, tracks, total, p + 1, rows[t := rows[t] + texts[p]])
  }

  /** `FTDOS_display_bitmap()` on the bitmap sector's bytes `raw`: the
      groups whose bytes are all in the data are the first `|raw| / 3`. */
  function Rendered(raw: seq<byte>, tracks: nat, sides: nat): Result<seq<string>> {
    Fill(Texts(raw, tracks, |raw| / 3), tracks, tracks * sides, 0, Headers(tracks))
  }

  /** The high byte of group `p` is in data of `n` bytes exactly when all
      three of its bytes are, that is when `p` is below `n / 3`. */
  lemma HighByteCut(n: nat, p: nat)
    ensures 3 * p + 2 < n <==> p < n / 3
  {
  }

  /** The loop stops at a group whose high byte is past the data. */
  lemma FillCut(texts: seq<string>, tracks: nat, total: nat, p: nat, rows: seq<string>)
    requires p < total && |texts| <= p && |rows| == tracks && (tracks > 0 || total == 0)
    ensures Fill(texts, tracks, total, p, rows) == Err(IndexOutOfRange(3 * p + 2))
  {
  }

  /** Group `p`'s text among the texts of the first `n` groups. */
  lemma TextAt(raw: seq<byte>, tracks: nat, n: nat, p: nat)
    requires 3 * n <= |raw| && p < n
    ensures Texts(raw, tracks, n)[p] == GroupText(raw, tracks, p)
  {
  }

  /** The first loop of `FTDOS_display_bitmap`: one header per track. */
  method HeaderRows(tracks: nat) returns (out: seq<string>)
    ensures out == Headers(tracks)
  {
    out := [];
    for t := 0 to tracks
      invariant out == Headers(tracks)[..t]
    {
      out := out + [Header(t)];
    }
  }

  /** The text the body of the second loop appends for group `p`. */
  method GroupLine(raw: seq<byte>, tracks: nat, p: nat) returns (text: string)
    requires 3 * p + 2 < |raw|
    ensures text == GroupText(raw, tracks, p)
  {
    var high, middle, low := raw[3 * p + 2], raw[3 * p + 1], raw[3 * p];
    text := if p >= tracks then SIDE_SEPARATOR else "";
    text := text + Hex2(high) + " " + Hex2(middle) + " " + Hex2(low) + " ";
    var glyphs := GroupGlyphs(high, middle, low);
    text := text + glyphs;
  }

  /** The loops of `FTDOS_display_bitmap` after the bitmap sector is read. */
  method Render(raw: seq<byte>, tracks: nat, sides: nat) returns (r: Result<seq<string>>)
    ensures r == Rendered(raw, tracks, sides)
  {
    ghost var texts := Texts(raw, tracks, |raw| / 3);
    var out := HeaderRows(tracks);
    var total := tracks * sides;
    var p := 0;
    while p < total
      invariant p <= total && |out| == tracks && (tracks > 0 || total == 0)
      invariant Fill(texts, tracks, total, p, out) == Rendered(raw, tracks, sides)
    {
      HighByteCut(|raw|, p);
      if 3 * p + 2 >= |raw| {
        FillCut(texts, tracks, total, p, out);
        return Err(IndexOutOfRange(3 * p + 2));
      }
      var text := GroupLine(raw, tracks, p);
      TextAt(raw, tracks, |raw| / 3, p);
      FillStep(texts, tracks, total, p, out);
      var row := RowOf(tracks, p);
      out := out[row := out[row] + text];
      p := p + 1;
    }
    return Ok(out);
  }

  /** The texts of groups `0..n-1`, all of whose bytes exist. */
  function Texts(raw: seq<byte>, tracks: nat, n: nat): (texts: seq<string>)
    requires 3 * n <= |raw|
    ensures |texts| == n
  {
    seq(n, p requires 0 <= p < n => GroupText(raw, tracks, p))
  }

  /** The texts of groups `q`, `q + tracks`, `q + 2 * tracks`, ... below
      `limit`, in that order. */
  function Stride(texts: seq<string>, tracks: nat, q: nat, limit: nat): string
    requires tracks > 0 && limit <= |texts|
    decreases limit - q
  {
    if q >= limit then "" else texts[q] + Stride(texts, tracks, q + tracks, limit)
  }

  /** The rows once groups `0..limit-1` are in: each track's header, then
      the groups that fall to its row, in increasing group order. */
  function RowsBelow(heads: seq<string>, texts: seq<string>, tracks: nat, limit: nat): (rows: seq<string>)
    requires tracks > 0 && |heads| == tracks && limit <= |texts|
    ensures |rows| == tracks
  {
    seq(tracks, t requires 0 <= t < tracks => heads[t] + Stride(texts, tracks, t, limit))
  }

  /** The reference rendering: row `t` is `Track t: ` followed by groups
      `t`, `t + tracks`, ..., one per side. */
  function Rows(raw: seq<byte>, tracks: nat, sides: nat): (rows: seq<string>)
    requires 3 * (tracks * sides) <= |raw|
    ensures |rows| == tracks
  {
    if tracks == 0 then [] else RowsBelow(Headers(tracks), Texts(raw, tracks, |raw| / 3), tracks, tracks * sides)
  }

  /** Taking one more group in extends the row it falls to and no other. */
  lemma {:induction false} StrideGrows(texts: seq<string>, tracks: nat, q: nat, p: nat)
    requires tracks > 0 && p < |texts| && q < tracks + p
    ensures q <= p && (p - q) % tracks == 0 ==>
      Stride(texts, tracks, q, p + 1) == Stride(texts, tracks, q, p) + texts[p]
    ensures !(q <= p && (p - q) % tracks == 0) ==>
      Stride(texts, tracks, q, p + 1) == Stride(texts, tracks, q, p)
    decreases p - q + tracks
  {
    if q < p {
      StrideGrows(texts, tracks, q + tracks, p);
      if q + tracks <= p {
        ModUnique(p - q, tracks, (p - q - tracks) / tracks + 1, (p - q - tracks) % tracks);
      } else {
        ModUnique(p - q, tracks, 0, p - q);
      }
      assert Stride(texts, tracks, q, p + 1) == texts[q] + Stride(texts, tracks, q + tracks, p + 1);
    } else if q == p {
      assert Stride(texts, tracks, q, p + 1) == texts[p] + "";
    }
  }

  /** Group `p` falls to row `t` exactly when `t` is `p % tracks`. */
  lemma RowOfGroup(tracks: nat, p: nat, t: nat)
    requires t < tracks && t < tracks + p
    ensures t <= p && (p - t) % tracks == 0 <==> t == RowOf(tracks, p)
  {
    var q, r := p / tracks, p % tracks;
    assert p == tracks * q + r;
    if t == r {
      ModUnique(p - t, tracks, q, 0);
    } else if t <= p && (p - t) % tracks == 0 {
      var k := (p - t) / tracks;
      assert p - t == tracks * k + 0;
      ModUnique(p, tracks, k, t);
    }
  }

  /** One more group extends its own row, `p % tracks`, by its text. */
  lemma RowGrows(heads: seq<string>, texts: seq<string>, tracks: nat, p: nat)
    requires tracks > 0 && |heads| == tracks && p < |texts|
    ensures RowsBelow(heads, texts, tracks, p + 1)[RowOf(tracks, p)] == RowsBelow(heads, texts, tracks, p)[RowOf(tracks, p)] + texts[p]
  {
    var t := RowOf(tracks, p);
    RowAt(heads, texts, tracks, p, t);
    RowAt(heads, texts, tracks, p + 1, t);
    OwnStrideGrows(texts, tracks, p);
    AppendAssoc(heads[t], Stride(texts, tracks, t, p), texts[p]);
  }

  lemma AppendAssoc(a: string, b: string, c: string)
    ensures a + (b + c) == (a + b) + c
  {
  }

  /** Group `p` ends the stride of its own row. */
  lemma OwnStrideGrows(texts: seq<string>, tracks: nat, p: nat)
    requires tracks > 0 && p < |texts|
    ensures Stride(texts, tracks, RowOf(tracks, p), p + 1) == Stride(texts, tracks, RowOf(tracks, p), p) + texts[p]
  {
    RowOfGroup(tracks, p, RowOf(tracks, p));
    StrideGrows(texts, tracks, RowOf(tracks, p), p);
  }

  /** One more group leaves every other row alone. */
  lemma RowKept(heads: seq<string>, texts: seq<string>, tracks: nat, p: nat, t: nat)
    requires tracks > 0 && |heads| == tracks && p < |texts| && t < tracks && t != RowOf(tracks, p)
    ensures RowsBelow(heads, texts, tracks, p + 1)[t] == RowsBelow(heads, texts, tracks, p)[t]
  {
    RowAt(heads, texts, tracks, p, t);
    RowAt(heads, texts, tracks, p + 1, t);
    RowOfGroup(tracks, p, t);
    StrideGrows(texts, tracks, t, p);
  }

  /** Row `t` below `limit` is its header and its stride. */
  lemma RowAt(heads: seq<string>, texts: seq<string>, tracks: nat, limit: nat, t: nat)
    requires tracks > 0 && |heads| == tracks && limit <= |texts| && t < tracks
    ensures RowsBelow(heads, texts, tracks, limit)[t] == heads[t] + Stride(texts, tracks, t, limit)
  {
  }

  /** One more iteration of the loop of the original keeps the rows equal
      to RowsBelow. */
  lemma RowsBelowStep(heads: seq<string>, texts: seq<string>, tracks: nat, p: nat)
    requires tracks > 0 && |heads| == tracks && p < |texts|
    ensures RowsBelow(heads, texts, tracks, p + 1)
         == RowsBelow(heads, texts, tracks, p)[RowOf(tracks, p) := RowsBelow(heads, texts, tracks, p)[RowOf(tracks, p)] + texts[p]]
  {
    var rows := RowsBelow(heads, texts, tracks, p);
    var rows' := rows[RowOf(tracks, p) := rows[RowOf(tracks, p)] + texts[p]];
    forall t | 0 <= t < tracks
      ensures RowsBelow(heads, texts, tracks, p + 1)[t] == rows'[t]
    {
      if t == RowOf(tracks, p) {
        RowGrows(heads, texts, tracks, p);
      } else {
        RowKept(heads, texts, tracks, p, t);
      }
    }
  }

  /** The loop of the original from group `p` on, when the rows hold groups
      `0..p-1`, ends with all `total` groups in their rows. */
  lemma {:induction false} FillFrom(heads: seq<string>, texts: seq<string>, tracks: nat, total: nat, p: nat)
    requires tracks > 0 && |heads| == tracks && p <= total <= |texts|
    ensures Fill(texts, tracks, total, p, RowsBelow(heads, texts, tracks, p)) == Ok(RowsBelow(heads, texts, tracks, total))
    decreases total - p
  {
    if p == total {
      FillDone(texts, tracks, total, RowsBelow(heads, texts, tracks, p));
    } else {
      FillBelowStep(heads, texts, tracks, total, p);
      FillFrom(heads, texts, tracks, total, p + 1);
    }
  }

  /** The loop ends once all groups are in. */
  lemma FillDone(texts: seq<string>, tracks: nat, total: nat, rows: seq<string>)
    requires |rows| == tracks && (tracks > 0 || total == 0)
    ensures Fill(texts, tracks, total, total, rows) == Ok(rows)
  {
  }

  /** One group of the loop, when its bytes are in the data. */
  lemma FillStep(texts: seq<string>, tracks: nat, total: nat, p: nat, rows: seq<string>)
    requires tracks > 0 && p < total && p < |texts| && |rows| == tracks
    ensures Fill(texts, tracks, total, p, rows)
         == Fill(texts, tracks, total, p + 1, rows[RowOf(tracks, p) := rows[RowOf(tracks, p)] + texts[p]])
  {
  }

  /** One group of the loop moves from the rows below `p` to those below `p + 1`. */
  lemma FillBelowStep(heads: seq<string>, texts: seq<string>, tracks: nat, total: nat, p: nat)
    requires tracks > 0 && |heads| == tracks && p < total <= |texts|
    ensures Fill(texts, tracks, total, p, RowsBelow(heads, texts, tracks, p))
         == Fill(texts, tracks, total, p + 1, RowsBelow(heads, texts, tracks, p + 1))
  {
    FillStep(texts, tracks, total, p, RowsBelow(heads, texts, tracks, p));
    RowsBelowStep(heads, texts, tracks, p);
  }

  /** When the bitmap data holds all `3 * tracks * sides` bytes, the output
      is the reference rows. */
  lemma RenderedRows(raw: seq<byte>, tracks: nat, sides: nat)
    requires 3 * (tracks * sides) <= |raw|
    ensures Rendered(raw, tracks, sides) == Ok(Rows(raw, tracks, sides))
  {
    if tracks > 0 {
      var texts := Texts(raw, tracks, |raw| / 3);
      forall t | 0 <= t < tracks
        ensures RowsBelow(Headers(tracks), texts, tracks, 0)[t] == Headers(tracks)[t]
      {
        assert Headers(tracks)[t] + "" == Headers(tracks)[t];
      }
      assert RowsBelow(Headers(tracks), texts, tracks, 0) == Headers(tracks);
      FillFrom(Headers(tracks), texts, tracks, tracks * sides, 0);
    }
  }

  /** The loop from group `p` fails exactly when some group from `p` on is
      cut off by the end of the data, and then at the first such group. */
  lemma {:induction false} FillFailure(texts: seq<string>, tracks: nat, total: nat, p: nat, rows: seq<string>)
    requires p <= total && |rows| == tracks && (tracks > 0 || total == 0)
    ensures Fill(texts, tracks, total, p, rows).Err? <==> Max(p, |texts|) < total
    ensures Fill(texts, tracks, total, p, rows).Err? ==>
      Fill(texts, tracks, total, p, rows).error == IndexOutOfRange(3 * Max(p, |texts|) + 2)
    decreases total - p
  {
    if p < total && p < |texts| {
      var t := RowOf(tracks, p);
      FillFailure(texts, tracks, total, p + 1, rows[t := rows[t] + texts[p]]);
    }
  }

  /** `FTDOS_display_bitmap` fails exactly when the data is shorter than
      the `3 * tracks * sides` bytes of its groups, and then on the high
      byte of the first group that is cut off. */
  lemma RenderedFailure(raw: seq<byte>, tracks: nat, sides: nat)
    ensures Rendered(raw, tracks, sides).Err? <==> |raw| / 3 < tracks * sides
    ensures Rendered(raw, tracks, sides).Err? ==>
      Rendered(raw, tracks, sides).error == IndexOutOfRange(3 * (|raw| / 3) + 2)
  {
    FillFailure(Texts(raw, tracks, |raw| / 3), tracks, tracks * sides, 0, Headers(tracks));
  }

  lemma MulLess(m: int, a: int, b: int)
    requires m > 0 && a < b
    ensures m * a + m <= m * b
  {
    var d := b - a;
    assert m * b == m * a + m * d;
    assert m * d == m * (d - 1) + m;
    assert m * (d - 1) >= 0;
  }

  /** The quotient and remainder of a division are unique. */
  lemma ModUnique(x: int, m: int, q: int, r: int)
    requires m > 0 && 0 <= r < m && x == m * q + r
    ensures x % m == r
  {
    var q', r' := x / m, x % m;
    assert x == m * q' + r';
    if q' < q {
      MulLess(m, q', q);
    } else if q < q' {
      MulLess(m, q, q');
    }
    assert q == q';
  }
}
