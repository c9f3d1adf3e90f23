/**
 * Two loops over the rows of a picture: the vertical flip done in place on the
 * read-back buffer (src/main.cc:110-115) and the packing of decoder rows that
 * are further apart than they are long, or stored bottom up (src/examples/play_movie/src/main.cc:91-110).
 */
module Rows {
  import opened Buffers

  function Cut(s: Picture, from: nat, n: nat): Picture {
    if from + n <= |s| then s[from..from + n] else []
  }

  /** Row `r` of a picture whose rows are `w` bytes long. */
  function Row(s: Picture, w: nat, r: nat): Picture {
    Cut(s, r * w, w)
  }

  lemma {:induction false} RowOrder(w: nat, r: nat, i: nat)
    requires r < i
    ensures r * w + w <= i * w
  {
    Times(r + 1, i, w);
  }

  lemma {:induction false} Times(a: nat, b: nat, w: nat)
    requires a <= b
    ensures a * w <= b * w
  {
  }

  /** Byte `k` of a picture is byte `c` of row `r`. */
  lemma {:induction false} Locate(k: nat, w: nat, h: nat) returns (r: nat, c: nat)
    requires k < h * w
    ensures r < h && c < w && k == r * w + c
  {
    assert w > 0;
    r, c := k / w, k % w;
    DivMod(k, w);
    if h <= r { Times(h, r, w); }
  }

  lemma {:induction false} DivMod(k: nat, w: nat)
    requires w > 0
    ensures k == (k / w) * w + k % w && k % w < w
  {
  }

  /** `t` is `s` upside down. */
  ghost predicate Flips(s: Picture, t: Picture, w: nat, h: nat) {
    && |s| == |t| == h * w
    && forall r :: 0 <= r < h ==> Row(t, w, r) == Row(s, w, h - 1 - r)
  }

  // ---- The loop ----

  function SwapAt(s: Picture, a: nat, b: nat, n: nat, k: nat): Byte
    requires a + n <= b && b + n <= |s| && k < |s|
  {
    if a <= k < a + n then s[k + (b - a)]
    else if b <= k < b + n then s[k - (b - a)]
    else s[k]
  }

  function Swapped(s: Picture, a: nat, b: nat, n: nat): Picture
    requires a + n <= b && b + n <= |s|
  {
    seq(|s|, (k: nat) requires k < |s| => SwapAt(s, a, b, n, k))
  }

  /** `std::swap_ranges(a, a + n, b)`. */
  method SwapRanges(buf: array<Byte>, a: nat, b: nat, n: nat)
    requires a + n <= b && b + n <= buf.Length
    modifies buf
    ensures buf[..] == Swapped(old(buf[..]), a, b, n)
  {
    ghost var s := buf[..];
    for i := 0 to n
      invariant forall k :: 0 <= k < buf.Length ==> buf[k] == SwapAt(s, a, b, i, k)
    {
      buf[a + i], buf[b + i] := buf[b + i], buf[a + i];
    }
  }

  lemma {:induction false} CutAfterSwap(s: Picture, a: nat, b: nat, n: nat, p: nat)
    requires a + n <= b && b + n <= |s| && p + n <= |s|
    ensures p == a ==> Cut(Swapped(s, a, b, n), p, n) == Cut(s, b, n)
    ensures p == b ==> Cut(Swapped(s, a, b, n), p, n) == Cut(s, a, n)
    ensures (p + n <= a || a + n <= p) && (p + n <= b || b + n <= p) ==> Cut(Swapped(s, a, b, n), p, n) == Cut(s, p, n)
  {
    var t := Swapped(s, a, b, n);
    var cut := t[p..p + n];
    assert forall k :: 0 <= k < |cut| ==> cut[k] == SwapAt(s, a, b, n, p + k);
    if p == a {
      assert cut == s[b..b + n];
    }
    if p == b {
      assert cut == s[a..a + n];
    }
    if (p + n <= a || a + n <= p) && (p + n <= b || b + n <= p) {
      assert cut == s[p..p + n];
    }
  }

  lemma {:induction false} RowsApart(w: nat, r: nat, i: nat)
    requires r != i
    ensures r * w + w <= i * w || i * w + w <= r * w
  {
    if r < i { RowOrder(w, r, i); } else { RowOrder(w, i, r); }
  }

  lemma {:induction false} RowsAfterSwap(s: Picture, w: nat, h: nat, i: nat, j: nat, r: nat)
    requires |s| == h * w && i < j < h && r < h
    requires i * w + w <= j * w && j * w + w <= |s|
    ensures Row(Swapped(s, i * w, j * w, w), w, r) == Row(s, w, if r == i then j else if r == j then i else r)
  {
    RowOrder(w, r, h);
    CutAfterSwap(s, i * w, j * w, w, r * w);
    if r != i && r != j {
      RowsApart(w, r, i);
      RowsApart(w, r, j);
    }
  }

  /** Rows above `line` and below its mirror are exchanged, the middle is untouched. */
  ghost predicate HalfFlipped(s: Picture, t: Picture, w: nat, h: nat, line: nat) {
    && |s| == |t| == h * w
    && forall r :: 0 <= r < h ==> Row(t, w, r) == Row(s, w, if r < line || r >= h - line then h - 1 - r else r)
  }

  lemma {:induction false} OneMoreLine(s: Picture, t: Picture, w: nat, h: nat, line: nat)
    requires HalfFlipped(s, t, w, h, line) && line < h / 2
    requires line * w + w <= (h - line - 1) * w && (h - line - 1) * w + w <= |t|
    ensures HalfFlipped(s, Swapped(t, line * w, (h - line - 1) * w, w), w, h, line + 1)
  {
    var u := Swapped(t, line * w, (h - line - 1) * w, w);
    forall r | 0 <= r < h ensures Row(u, w, r) == Row(s, w, if r < line + 1 || r >= h - line - 1 then h - 1 - r else r) {
      RowsAfterSwap(t, w, h, line, h - line - 1, r);
    }
  }

  /** With an odd number of rows the middle one is its own mirror. */
  lemma {:induction false} BothHalves(s: Picture, t: Picture, w: nat, h: nat)
    requires HalfFlipped(s, t, w, h, h / 2)
    ensures Flips(s, t, w, h)
  {
  }

  method Flip(buf: array<Byte>, w: nat, h: nat)
    requires buf.Length == h * w
    modifies buf
    ensures Flips(old(buf[..]), buf[..], w, h)
  {
    ghost var s := buf[..];
    var line := 0;
    while line != h / 2
      invariant line <= h / 2
      invariant HalfFlipped(s, buf[..], w, h, line)
    {
      ghost var t := buf[..];
      RowOrder(w, line, h - line - 1);
      RowOrder(w, h - line - 1, h);
      OneMoreLine(s, t, w, h, line);
      SwapRanges(buf, line * w, (h - line - 1) * w, w);
      line := line + 1;
    }
    BothHalves(s, buf[..], w, h);
  }

  // ---- What a flip means ----

  lemma {:induction false} ByteInRow(s: Picture, w: nat, h: nat, r: nat, c: nat)
    requires |s| == h * w && r < h && c < w
    ensures r * w + c < |s| && |Row(s, w, r)| == w && s[r * w + c] == Row(s, w, r)[c]
  {
    RowOrder(w, r, h);
  }

  /** Pixel by pixel: row r comes from row q = H - 1 - r, columns stay. */
  lemma {:induction false} FlipMovesPixels(s: Picture, t: Picture, w: nat, h: nat, r: nat, q: nat, c: nat)
    requires Flips(s, t, w, h) && r < h && c < w && q == h - 1 - r
    ensures r * w + c < |t| && q * w + c < |s|
    ensures t[r * w + c] == s[q * w + c]
  {
    ByteInRow(t, w, h, r, c);
    ByteInRow(s, w, h, q, c);
  }

  lemma {:induction false} RowsDetermine(s: Picture, t: Picture, w: nat, h: nat)
    requires |s| == |t| == h * w
    requires forall r :: 0 <= r < h ==> Row(s, w, r) == Row(t, w, r)
    ensures s == t
  {
    forall k | 0 <= k < |s| ensures s[k] == t[k] {
      var r, c := Locate(k, w, h);
      ByteInRow(s, w, h, r, c);
      ByteInRow(t, w, h, r, c);
    }
  }

  /** Flipping twice restores the picture, for every width and height. */
  lemma {:induction false} FlipTwice(s: Picture, t: Picture, u: Picture, w: nat, h: nat)
    requires Flips(s, t, w, h) && Flips(t, u, w, h)
    ensures u == s
  {
    forall r | 0 <= r < h ensures Row(u, w, r) == Row(s, w, r) {
      assert Row(u, w, r) == Row(t, w, h - 1 - r);
    }
    RowsDetermine(u, s, w, h);
  }

  // ---- Packing ----

  /** A decoder's plane: row `r` starts `r * linesize` bytes from the byte `start`
      of a block.  A picture stored bottom up has a negative `linesize`. */
  datatype Plane = Plane(bytes: Picture, start: int, linesize: int)

  /** Byte `c` of packed row `r` is byte `c` of the decoder's row `r`. */
  predicate PackedByte(f: Plane, packed: Picture, w: nat, r: nat, c: nat) {
    && 0 <= f.start + r * f.linesize + c < |f.bytes|
    && r * w + c < |packed|
    && packed[r * w + c] == f.bytes[f.start + r * f.linesize + c]
  }

  /** The first `w` bytes of each row, put next to each other. */
  ghost predicate Packs(f: Plane, packed: Picture, w: nat, h: nat) {
    && |packed| == h * w
    && forall r, c :: 0 <= r < h && 0 <= c < w ==> PackedByte(f, packed, w, r, c)
  }

  function RowStart(f: Plane, r: nat): int {
    f.start + r * f.linesize
  }

  /** Row `r` lies inside the block. */
  predicate HasRow(f: Plane, w: nat, r: nat) {
    0 <= f.start + r * f.linesize && f.start + r * f.linesize + w <= |f.bytes|
  }

  function Piece(f: Plane, w: nat, r: nat): Picture {
    if RowStart(f, r) < 0 then [] else Cut(f.bytes, RowStart(f, r), w)
  }

  function Pasted(s: Picture, to: nat, bytes: Picture): Picture
    requires to + |bytes| <= |s|
  {
    s[..to] + bytes + s[to + |bytes|..]
  }

  /** `memcpy(frameBuffer + to, data + from, n)`. */
  method CopyRow(frameBuffer: array<Byte>, to: nat, data: Picture, from: nat, n: nat)
    requires to + n <= frameBuffer.Length && from + n <= |data|
    modifies frameBuffer
    ensures frameBuffer[..] == Pasted(old(frameBuffer[..]), to, Cut(data, from, n))
  {
    for i := 0 to n
      invariant forall k :: 0 <= k < frameBuffer.Length ==>
        frameBuffer[k] == if to <= k < to + i then data[from + (k - to)] else old(frameBuffer[k])
    {
      frameBuffer[to + i] := data[from + i];
    }
  }

  lemma {:induction false} CutAfterPaste(s: Picture, bytes: Picture, to: nat, p: nat)
    requires to + |bytes| <= |s| && (p == to || p + |bytes| <= to)
    ensures Cut(Pasted(s, to, bytes), p, |bytes|) == if p == to then bytes else Cut(s, p, |bytes|)
  {
  }

  lemma {:induction false} RowAfterPaste(s: Picture, w: nat, row: nat, bytes: Picture, r: nat)
    requires r <= row && row * w + w <= |s| && |bytes| == w > 0
    ensures Row(Pasted(s, row * w, bytes), w, r) == if r == row then bytes else Row(s, w, r)
  {
    if r < row { RowOrder(w, r, row); }
    CutAfterPaste(s, bytes, row * w, r * w);
  }

  ghost predicate FirstRowsPacked(f: Plane, packed: Picture, w: nat, rows: nat) {
    forall r :: 0 <= r < rows ==> Row(packed, w, r) == Piece(f, w, r)
  }

  lemma {:induction false} OneMoreRowPacked(f: Plane, s: Picture, w: nat, row: nat)
    requires FirstRowsPacked(f, s, w, row)
    requires row * w + w <= |s| && HasRow(f, w, row)
    ensures FirstRowsPacked(f, Pasted(s, row * w, Piece(f, w, row)), w, row + 1)
  {
    var bytes := Piece(f, w, row);
    forall r | 0 <= r < row + 1 ensures Row(Pasted(s, row * w, bytes), w, r) == Piece(f, w, r) {
      if w > 0 { RowAfterPaste(s, w, row, bytes, r); }
    }
  }

  lemma {:induction false} RowsToBytes(f: Plane, packed: Picture, w: nat, h: nat, r: nat, c: nat)
    requires |packed| == h * w && r < h && c < w
    requires HasRow(f, w, r) && Row(packed, w, r) == Piece(f, w, r)
    ensures PackedByte(f, packed, w, r, c)
  {
    ByteInRow(packed, w, h, r, c);
    var from := RowStart(f, r);
    assert Piece(f, w, r) == f.bytes[from..from + w];
    assert Piece(f, w, r)[c] == f.bytes[from + c];
  }

  lemma {:induction false} AllRowsToBytes(f: Plane, packed: Picture, w: nat, h: nat)
    requires |packed| == h * w && FirstRowsPacked(f, packed, w, h)
    requires forall r :: 0 <= r < h ==> HasRow(f, w, r)
    ensures Packs(f, packed, w, h)
  {
    forall r, c | 0 <= r < h && 0 <= c < w ensures PackedByte(f, packed, w, r, c) {
      RowsToBytes(f, packed, w, h, r, c);
    }
  }

  /** `width` pixels of four bytes to a row. */
  method PackRows(f: Plane, width: nat, h: nat) returns (frameBuffer: array<Byte>)
    requires forall r :: 0 <= r < h ==> HasRow(f, width * 4, r)
    ensures fresh(frameBuffer) && Packs(f, frameBuffer[..], width * 4, h)
  {
    var w := width * 4;
    frameBuffer := new Byte[h * w](_ => 0);
    for row := 0 to h
      invariant FirstRowsPacked(f, frameBuffer[..], w, row)
    {
      RowOrder(w, row, h);
      var to, from := row * w, RowStart(f, row);
      assert HasRow(f, w, row) && Piece(f, w, row) == Cut(f.bytes, from, w);
      OneMoreRowPacked(f, frameBuffer[..], w, row);
      CopyRow(frameBuffer, to, f.bytes, from, w);
    }
    AllRowsToBytes(f, frameBuffer[..], w, h);
  }

  /** Two planes have the same byte `c` in row `r`, wherever the row lies. */
  predicate SameByte(f: Plane, f': Plane, r: nat, c: nat) {
    && 0 <= f.start + r * f.linesize + c < |f.bytes|
    && 0 <= f'.start + r * f'.linesize + c < |f'.bytes|
    && f.bytes[f.start + r * f.linesize + c] == f'.bytes[f'.start + r * f'.linesize + c]
  }

  /** The packed picture is fixed by the bytes of the rows; the gaps between them do
      not matter. */
  lemma {:induction false} PackingIgnoresGaps(f: Plane, p: Picture, f': Plane, q: Picture, w: nat, h: nat)
    requires Packs(f, p, w, h) && Packs(f', q, w, h)
    requires forall r, c :: 0 <= r < h && 0 <= c < w ==> SameByte(f, f', r, c)
    ensures p == q
  {
    forall k | 0 <= k < |p| ensures p[k] == q[k] {
      var r, c := Locate(k, w, h);
      assert PackedByte(f, p, w, r, c) && PackedByte(f', q, w, r, c) && SameByte(f, f', r, c);
    }
  }
}
