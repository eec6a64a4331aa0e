/**
 * `chunk_text`: the splitter that cuts the extracted document text into
 * overlapping pieces before they are embedded.
 *
 * A window of `chunkSize` characters slides over the text. A window that
 * does not reach the end of the text is cut back to end just after its
 * rightmost `.` or newline, when that character lies more than halfway into
 * the window. The piece is the window's text with surrounding whitespace
 * stripped, and the next window starts `overlap` characters before the end
 * of the (possibly cut back) window.
 */
module Chunker {
  import opened Text

  /** The arguments `process_pdf` passes (the defaults of `chunk_text`). */
  const DefaultChunkSize: int := 1000
  const DefaultOverlap: int := 200

  /** Arguments under which `chunk_text` always terminates. A cut-back
      window can be as short as `chunkSize / 2 + 2` characters, so the
      overlap has to stay below that as well as below `chunkSize`. Beyond
      that bound the cursor can fall back to 0 or below after a window
      (StallWithoutOverlapBound), and when it lands exactly on 0 the loop
      repeats its first window forever (StallForever). */
  predicate ValidParams(chunkSize: int, overlap: int) {
    0 < chunkSize && overlap < chunkSize && 2 * overlap <= chunkSize + 2
  }

  /** The characters a window may be cut back to. */
  predicate IsBreak(c: char) {
    c == '.' || c == '\n'
  }

  /** `max(chunk.rfind('.'), chunk.rfind('\n'))`: the index of the rightmost
      break character of the window, or -1 when it has none. */
  function BreakPoint(window: string): (bp: int)
    ensures -1 <= bp < |window|
    ensures 0 <= bp ==> IsBreak(window[bp])
    ensures forall i :: bp < i < |window| ==> !IsBreak(window[i])
  {
    Max(RFind(window, '.'), RFind(window, '\n'))
  }

  /** The index of the rightmost break character of `text[lo..j]`,
      counted in `text`, or `lo - 1` when that part has none. */
  function LastBreak(text: string, lo: nat, j: nat): (r: int)
    requires lo <= j <= |text|
    ensures lo - 1 <= r < j
    ensures lo <= r ==> IsBreak(text[r])
    decreases j - lo
  {
    if j == lo then lo - 1
    else if IsBreak(text[j - 1]) then j - 1
    else LastBreak(text, lo, j - 1)
  }

  /** Nothing after LastBreak, up to `j`, is a break character. */
  lemma {:induction false} LastBreakIsLast(text: string, lo: nat, j: nat)
    requires lo <= j <= |text|
    ensures forall i :: LastBreak(text, lo, j) < i < j ==> !IsBreak(text[i])
    decreases j - lo
  {
    if j > lo && !IsBreak(text[j - 1]) {
      LastBreakIsLast(text, lo, j - 1);
    }
  }

  /** The rfind-based break point of a window cut out of the text is the
      last break of that part of the text, shifted to the window. */
  lemma BreakPointInText(text: string, start: nat, end: nat)
    requires start <= end <= |text|
    ensures BreakPoint(text[start..end]) == LastBreak(text, start, end) - start
  {
    var w := text[start..end];
    LastBreakIsLast(text, start, end);
    assert forall i :: 0 <= i < |w| ==> w[i] == text[start + i];
  }

  /** The window from `start` has a break character more than halfway in. */
  ghost predicate BreakPastMiddle(text: string, chunkSize: int, start: nat) {
    exists i :: start <= i < start + chunkSize && i < |text| && IsBreak(text[i]) && 2 * (i - start) > chunkSize
  }

  /** The end of the window that starts at `start` (exclusive; it may lie
      beyond the text, which slicing clamps). The window is either kept
      whole or cut back to more than half its length plus one; the lemma
      WindowEndRule says which. */
  function WindowEnd(text: string, chunkSize: int, start: nat): (end: int)
    requires 0 < chunkSize && start < |text|
    ensures start < end <= start + chunkSize
    ensures end == start + chunkSize || 2 * (end - start) > chunkSize + 2
  {
    var end := start + chunkSize;
    if end < |text| then
      var bp := LastBreak(text, start, end) - start;
      if 2 * bp > chunkSize then start + bp + 1 else end
    else
      end
  }

  /** A window that stops short of the end of the text and has a break more
      than halfway in is cut back to just after its rightmost break; every
      other window is kept whole. */
  lemma WindowEndRule(text: string, chunkSize: int, start: nat)
    requires 0 < chunkSize && start < |text|
    ensures var end := WindowEnd(text, chunkSize, start);
      && (start + chunkSize < |text| && BreakPastMiddle(text, chunkSize, start) ==>
            && IsBreak(text[end - 1])
            && 2 * (end - 1 - start) > chunkSize
            && forall i :: end <= i < start + chunkSize ==> !IsBreak(text[i]))
      && (start + chunkSize >= |text| || !BreakPastMiddle(text, chunkSize, start) ==>
            end == start + chunkSize)
  {
    var end := start + chunkSize;
    if end < |text| {
      LastBreakIsLast(text, start, end);
    }
  }

  /** The untrimmed window `text[lo:hi]` one iteration of the loop looks at. */
  datatype Span = Span(lo: nat, hi: nat)

  /** The windows the loop visits from cursor `start` on, in order. There
      are none exactly when the cursor is at or past the end of the text,
      and otherwise the first starts at the cursor. */
  function Windows(text: string, chunkSize: int, overlap: int, start: nat): (ws: seq<Span>)
    requires ValidParams(chunkSize, overlap)
    ensures ws == [] <==> start >= |text|
    ensures ws != [] ==> ws[0].lo == start
    decreases |text| - start
  {
    if start >= |text| then []
    else
      var end := WindowEnd(text, chunkSize, start);
      [Span(start, end)] + Windows(text, chunkSize, overlap, end - overlap)
  }

  /** The chunk emitted for a window: its text, stripped. */
  function Piece(text: string, w: Span): string {
    Strip(Slice(text, w.lo, w.hi))
  }

  /** The chunks emitted for a run of windows: one per window. */
  function Pieces(text: string, ws: seq<Span>): (ps: seq<string>)
    ensures |ps| == |ws|
  {
    if ws == [] then [] else [Piece(text, ws[0])] + Pieces(text, ws[1..])
  }

  /** What `chunk_text(text, chunkSize, overlap)` returns: one chunk per
      window, and none exactly for the empty text. */
  function Chunks(text: string, chunkSize: int, overlap: int): (cs: seq<string>)
    requires ValidParams(chunkSize, overlap)
    ensures |cs| == |Windows(text, chunkSize, overlap, 0)|
    ensures cs == [] <==> text == []
  {
    Pieces(text, Windows(text, chunkSize, overlap, 0))
  }

  /** One window of `chunk_text`: slice `chunkSize` characters from
      `start` and, when the slice stops short of the end of the text, cut it
      back after its rightmost `.` or newline if that lies more than halfway
      in. Returns the window's end and its untrimmed text. */
  method CutWindow(text: string, chunkSize: int, start: nat) returns (end: int, chunk: string)
    requires 0 < chunkSize && start < |text|
    ensures end == WindowEnd(text, chunkSize, start)
    ensures chunk == Slice(text, start, end)
  {
    end := start + chunkSize;
    chunk := Slice(text, start, end);
    if end < |text| {
      var lastPeriod := RFind(chunk, '.');
      var lastNewline := RFind(chunk, '\n');
      var breakPoint := Max(lastPeriod, lastNewline);
      assert chunk == text[start..start + chunkSize];
      BreakPointInText(text, start, start + chunkSize);
      assert breakPoint == LastBreak(text, start, start + chunkSize) - start;
      if 2 * breakPoint > chunkSize {
        chunk := chunk[..breakPoint + 1];
        end := start + breakPoint + 1;
        assert chunk == text[start..end];
      }
    }
  }

  /** `chunk_text` as written: a cursor loop that appends one stripped
      window per iteration and moves the cursor back by `overlap` from the
      end of the window it just emitted. */
  method ChunkText(text: string, chunkSize: int, overlap: int) returns (chunks: seq<string>)
    requires ValidParams(chunkSize, overlap)
    ensures chunks == Chunks(text, chunkSize, overlap)
  {
    ghost var ws := Windows(text, chunkSize, overlap, 0);
    FirstWindow(text, chunkSize, overlap);
    if |text| == 0 {
      return [];
    }
    chunks := [];
    var start := 0;
    var textLength := |text|;
    while start < textLength
      invariant 0 <= start
      invariant |chunks| <= |ws|
      invariant |chunks| < |ws| <==> start < textLength
      invariant |chunks| < |ws| ==> ws[|chunks|].lo == start
      invariant chunks == Pieces(text, ws[..|chunks|])
      decreases textLength - start
    {
      ghost var k := |chunks|;
      var end, chunk := CutWindow(text, chunkSize, start);
      NextWindow(text, chunkSize, overlap, k);
      assert ws[k].lo == start && ws[k].hi == end;
      PiecesPrefix(text, ws, k);
      chunks := chunks + [Strip(chunk)];
      start := end - overlap;
    }
    assert ws[..|chunks|] == ws;
  }

  /** Where the loop's run begins: there is a first window exactly when the
      text is not empty, and it starts at 0. */
  lemma FirstWindow(text: string, chunkSize: int, overlap: int)
    requires ValidParams(chunkSize, overlap)
    ensures var ws := Windows(text, chunkSize, overlap, 0);
      && (ws == [] <==> text == [])
      && (ws != [] ==> ws[0].lo == 0)
  {
    WindowsShape(text, chunkSize, overlap, 0);
  }

  /** From the `k`-th window of the run to the next: the window ends where
      WindowEnd puts it, and the cursor `overlap` before that end is either
      the start of the next window, which lies further right inside the
      text, or at or past the end of the text, where the run stops. */
  lemma NextWindow(text: string, chunkSize: int, overlap: int, k: nat)
    requires ValidParams(chunkSize, overlap)
    requires k < |Windows(text, chunkSize, overlap, 0)|
    ensures var ws := Windows(text, chunkSize, overlap, 0);
      && ws[k].lo < |text|
      && ws[k].hi == WindowEnd(text, chunkSize, ws[k].lo)
      && (k + 1 < |ws| ==> ws[k + 1].lo == ws[k].hi - overlap && ws[k].lo < ws[k + 1].lo < |text|)
      && (k + 1 == |ws| ==> ws[k].hi - overlap >= |text|)
  {
    WindowsShape(text, chunkSize, overlap, 0);
  }

  /** One iteration of the loop: the pieces from cursor `start` on are the
      piece of the window at `start` followed by the pieces from the next
      cursor on. */
  lemma PiecesStep(text: string, chunkSize: int, overlap: int, start: nat)
    requires ValidParams(chunkSize, overlap) && start < |text|
    ensures var end := WindowEnd(text, chunkSize, start);
      Pieces(text, Windows(text, chunkSize, overlap, start))
        == [Strip(Slice(text, start, end))] + Pieces(text, Windows(text, chunkSize, overlap, end - overlap))
  {
    var end := WindowEnd(text, chunkSize, start);
    var rest := Windows(text, chunkSize, overlap, end - overlap);
    assert Windows(text, chunkSize, overlap, start) == [Span(start, end)] + rest;
    assert ([Span(start, end)] + rest)[1..] == rest;
  }

  /** The run visits at most one window per character from `start` on. */
  lemma {:induction false} WindowsCount(text: string, chunkSize: int, overlap: int, start: nat)
    requires ValidParams(chunkSize, overlap)
    ensures |Windows(text, chunkSize, overlap, start)| <= (if start < |text| then |text| - start else 0)
    decreases |text| - start
  {
    if start < |text| {
      var end := WindowEnd(text, chunkSize, start);
      WindowsCount(text, chunkSize, overlap, end - overlap);
    }
  }

  /** The run stops only once the cursor `overlap` before the end of its
      last window is at or past the end of the text. */
  lemma {:induction false} WindowsLast(text: string, chunkSize: int, overlap: int, start: nat)
    requires ValidParams(chunkSize, overlap)
    ensures var ws := Windows(text, chunkSize, overlap, start);
      ws != [] ==> ws[|ws| - 1].hi - overlap >= |text|
    decreases |text| - start
  {
    if start < |text| {
      var end := WindowEnd(text, chunkSize, start);
      var rest := Windows(text, chunkSize, overlap, end - overlap);
      WindowsLast(text, chunkSize, overlap, end - overlap);
      var ws := Windows(text, chunkSize, overlap, start);
      assert ws == [Span(start, end)] + rest;
      if rest != [] {
        assert ws[|ws| - 1] == rest[|rest| - 1];
      }
    }
  }

  /** Every window of the run starts inside the text, at or after `start`,
      and ends where WindowEnd puts it. */
  lemma {:induction false} WindowsInText(text: string, chunkSize: int, overlap: int, start: nat)
    requires ValidParams(chunkSize, overlap)
    ensures var ws := Windows(text, chunkSize, overlap, start);
      && (ws == [] <==> start >= |text|)
      && forall i :: 0 <= i < |ws| ==>
           start <= ws[i].lo < |text| && ws[i].hi == WindowEnd(text, chunkSize, ws[i].lo)
    decreases |text| - start
  {
    if start < |text| {
      var end := WindowEnd(text, chunkSize, start);
      var next: nat := end - overlap;
      var rest := Windows(text, chunkSize, overlap, next);
      WindowsInText(text, chunkSize, overlap, next);
      var ws := Windows(text, chunkSize, overlap, start);
      assert ws == [Span(start, end)] + rest;
      assert start < next;
      forall i | 0 < i < |ws|
        ensures start <= ws[i].lo < |text| && ws[i].hi == WindowEnd(text, chunkSize, ws[i].lo)
      {
        assert ws[i] == rest[i - 1];
      }
    }
  }

  /** Each next window of the run starts exactly `overlap` characters before
      the previous one ends, which is strictly to the right of where the
      previous one starts. */
  lemma {:induction false} WindowsLinked(text: string, chunkSize: int, overlap: int, start: nat)
    requires ValidParams(chunkSize, overlap)
    ensures var ws := Windows(text, chunkSize, overlap, start);
      && (ws == [] <==> start >= |text|)
      && forall i :: 0 < i < |ws| ==> ws[i].lo == ws[i - 1].hi - overlap && ws[i - 1].lo < ws[i].lo
    decreases |text| - start
  {
    if start < |text| {
      var end := WindowEnd(text, chunkSize, start);
      var rest := Windows(text, chunkSize, overlap, end - overlap);
      WindowsLinked(text, chunkSize, overlap, end - overlap);
        var ws := Windows(text, chunkSize, overlap, start);
      assert ws == [Span(start, end)] + rest;
      forall i | 1 < i < |ws| ensures ws[i].lo == ws[i - 1].hi - overlap && ws[i - 1].lo < ws[i].lo {
        assert ws[i] == rest[i - 1] && ws[i - 1] == rest[i - 2];
      }
    }
  }

  /** The shape of the loop's run: the cursor starts at `start`, every window
      lies within the text and has the end WindowEnd gives it, each next
      window starts exactly `overlap` characters before the previous one
      ends (so the cursor strictly increases), the loop stops only once that
      point is at or past the end of the text, and it runs at most once per
      character. */
  lemma WindowsShape(text: string, chunkSize: int, overlap: int, start: nat)
    requires ValidParams(chunkSize, overlap)
    ensures var ws := Windows(text, chunkSize, overlap, start);
      && (ws == [] <==> start >= |text|)
      && (ws != [] ==> ws[0].lo == start && ws[|ws| - 1].hi - overlap >= |text|)
      && |ws| <= (if start < |text| then |text| - start else 0)
      && (forall i :: 0 <= i < |ws| ==>
            start <= ws[i].lo < |text| && ws[i].hi == WindowEnd(text, chunkSize, ws[i].lo))
      && (forall i :: 0 < i < |ws| ==> ws[i].lo == ws[i - 1].hi - overlap && ws[i - 1].lo < ws[i].lo)
  {
    WindowsCount(text, chunkSize, overlap, start);
    WindowsLast(text, chunkSize, overlap, start);
    WindowsInText(text, chunkSize, overlap, start);
    WindowsLinked(text, chunkSize, overlap, start);
  }

  /** The pieces of one more window are the pieces so far followed by the
      piece of that window. */
  lemma {:induction false} PiecesAppend(text: string, ws: seq<Span>, w: Span)
    ensures Pieces(text, ws + [w]) == Pieces(text, ws) + [Piece(text, w)]
  {
    if ws == [] {
      assert [w][1..] == [];
    } else {
      PiecesAppend(text, ws[1..], w);
      assert (ws + [w])[1..] == ws[1..] + [w];
    }
  }

  /** The pieces of one more window of a run are the pieces so far and the
      piece of that window. */
  lemma PiecesPrefix(text: string, ws: seq<Span>, k: nat)
    requires k < |ws|
    ensures Pieces(text, ws[..k + 1]) == Pieces(text, ws[..k]) + [Piece(text, ws[k])]
  {
    assert ws[..k + 1] == ws[..k] + [ws[k]];
    PiecesAppend(text, ws[..k], ws[k]);
  }

  lemma {:induction false} PiecesAt(text: string, ws: seq<Span>)
    ensures |Pieces(text, ws)| == |ws|
    ensures forall i :: 0 <= i < |ws| ==> Pieces(text, ws)[i] == Piece(text, ws[i])
  {
    if ws != [] {
      PiecesAt(text, ws[1..]);
      var ps := Pieces(text, ws);
      var rest := Pieces(text, ws[1..]);
      assert ps == [Piece(text, ws[0])] + rest;
      forall i | 0 < i < |ws| ensures ps[i] == Piece(text, ws[i]) {
        assert ps[i] == rest[i - 1];
        assert ws[1..][i - 1] == ws[i];
      }
    }
  }

  /** `r` occurs in `text` somewhere inside window `w`. */
  ghost predicate InsideWindow(r: string, text: string, w: Span) {
    exists a :: w.lo <= a && a + |r| <= w.hi && OccursAt(r, text, a)
  }

  /** A slice of a slice is a slice of the whole. */
  lemma SliceOfSlice(t: string, lo: nat, hi: nat, a: nat, b: nat)
    requires lo <= hi <= |t| && a <= b <= hi - lo
    ensures t[lo..hi][a..b] == t[lo + a..lo + b]
  {
    var u := t[lo..hi];
    assert forall i :: 0 <= i < b - a ==> u[a..b][i] == u[a + i] == t[lo + a + i];
  }

  /** The piece of a window that starts inside the text is a contiguous part
      of the text inside that window. */
  lemma PieceInWindow(text: string, w: Span)
    requires w.lo < w.hi && w.lo < |text|
    ensures InsideWindow(Piece(text, w), text, w)
  {
    var e := Min(w.hi, |text|);
    var s := Slice(text, w.lo, w.hi);
    assert s == text[w.lo..e];
    var r := Strip(s);
    StripSpec(s);
    var a := SkipSpaces(s, 0);
    var b := a + |r|;
    assert r == s[a..b];
    SliceOfSlice(text, w.lo, e, a, b);
    assert OccursAt(r, text, w.lo + a);
  }

  /** Each chunk is the stripped text of its window, each window is at most
      `chunkSize` characters long, and so the `i`-th chunk is a contiguous
      piece of the text lying inside the `i`-th window. */
  lemma ChunksAreStrippedWindows(text: string, chunkSize: int, overlap: int)
    requires ValidParams(chunkSize, overlap)
    ensures var ws := Windows(text, chunkSize, overlap, 0);
      var cs := Chunks(text, chunkSize, overlap);
      && |cs| == |ws|
      && forall i :: 0 <= i < |ws| ==>
           && cs[i] == Strip(Slice(text, ws[i].lo, ws[i].hi))
           && ws[i].lo < ws[i].hi <= ws[i].lo + chunkSize
           && InsideWindow(cs[i], text, ws[i])
  {
    var ws := Windows(text, chunkSize, overlap, 0);
    var cs := Chunks(text, chunkSize, overlap);
    WindowsInText(text, chunkSize, overlap, 0);
    PiecesAt(text, ws);
    forall i | 0 <= i < |ws|
      ensures cs[i] == Strip(Slice(text, ws[i].lo, ws[i].hi))
      ensures ws[i].lo < ws[i].hi <= ws[i].lo + chunkSize
      ensures InsideWindow(cs[i], text, ws[i])
    {
      PieceInWindow(text, ws[i]);
    }
  }

  /** Position `p` of the text lies in one of the windows `ws`. */
  ghost predicate Covered(ws: seq<Span>, p: int) {
    exists i :: 0 <= i < |ws| && ws[i].lo <= p < ws[i].hi
  }

  lemma {:induction false} CoverageFrom(text: string, chunkSize: int, overlap: int, start: nat, p: int)
    requires ValidParams(chunkSize, overlap) && 0 <= overlap
    requires start <= p < |text|
    ensures Covered(Windows(text, chunkSize, overlap, start), p)
    decreases |text| - start
  {
    var ws := Windows(text, chunkSize, overlap, start);
    var end := WindowEnd(text, chunkSize, start);
    var rest := Windows(text, chunkSize, overlap, end - overlap);
    assert ws == [Span(start, end)] + rest;
    if end <= p {
      CoverageFrom(text, chunkSize, overlap, end - overlap, p);
      var j :| 0 <= j < |rest| && rest[j].lo <= p < rest[j].hi;
      assert ws[j + 1] == rest[j];
    } else {
      assert ws[0].lo <= p < ws[0].hi;
    }
  }

  /** With a non-negative overlap the untrimmed windows leave no gap: every
      character of the text lies in some window. */
  lemma Coverage(text: string, chunkSize: int, overlap: int)
    requires ValidParams(chunkSize, overlap) && 0 <= overlap
    ensures forall p :: 0 <= p < |text| ==> Covered(Windows(text, chunkSize, overlap, 0), p)
  {
    forall p | 0 <= p < |text| ensures Covered(Windows(text, chunkSize, overlap, 0), p) {
      CoverageFrom(text, chunkSize, overlap, 0, p);
    }
  }

  /** The empty text gives no chunks; any other text, even all whitespace,
      gives at least one and at most one per character. */
  lemma ChunkCount(text: string, chunkSize: int, overlap: int)
    requires ValidParams(chunkSize, overlap)
    ensures text == [] ==> Chunks(text, chunkSize, overlap) == []
    ensures text != [] ==> 1 <= |Chunks(text, chunkSize, overlap)| <= |text|
  {
    WindowsShape(text, chunkSize, overlap, 0);
    PiecesAt(text, Windows(text, chunkSize, overlap, 0));
  }

  /** Whitespace-only text is not rejected: it gives chunks that are all
      empty strings. */
  lemma BlankTextGivesEmptyChunks(text: string, chunkSize: int, overlap: int)
    requires ValidParams(chunkSize, overlap)
    requires text != [] && Blank(text)
    ensures var cs := Chunks(text, chunkSize, overlap);
      cs != [] && forall i :: 0 <= i < |cs| ==> cs[i] == []
  {
    var ws := Windows(text, chunkSize, overlap, 0);
    ChunkCount(text, chunkSize, overlap);
    PiecesAt(text, ws);
    forall i | 0 <= i < |ws| ensures Piece(text, ws[i]) == [] {
      BlankSlice(text, ws[i].lo, ws[i].hi);
      StripSpec(Slice(text, ws[i].lo, ws[i].hi));
    }
  }

  /** Once the cursor is within `chunkSize - overlap` of the end of the
      text, one window remains: the rest of the text, stripped. */
  lemma LastChunk(text: string, chunkSize: int, overlap: int, start: nat)
    requires ValidParams(chunkSize, overlap)
    requires 0 <= overlap && start < |text| <= start + chunkSize - overlap
    ensures Pieces(text, Windows(text, chunkSize, overlap, start)) == [Strip(text[start..])]
  {
    assert WindowEnd(text, chunkSize, start) == start + chunkSize;
    PiecesStep(text, chunkSize, overlap, start);
    assert Windows(text, chunkSize, overlap, start + chunkSize - overlap) == [];
    assert Slice(text, start, start + chunkSize) == text[start..];
  }

  /** A text no longer than `chunkSize - overlap` is one chunk: the whole
      text, stripped. */
  lemma ShortTextIsOneChunk(text: string, chunkSize: int, overlap: int)
    requires ValidParams(chunkSize, overlap) && 0 <= overlap
    requires 0 < |text| <= chunkSize - overlap
    ensures Chunks(text, chunkSize, overlap) == [Strip(text)]
  {
    LastChunk(text, chunkSize, overlap, 0);
    assert text[0..] == text;
  }

  /** A text longer than `chunkSize - overlap` but no longer than `chunkSize`
      is two chunks, because the loop goes on after a window that already
      reached the end: the whole text, and its part from `chunkSize -
      overlap` on. */
  lemma NearFullTextIsTwoChunks(text: string, chunkSize: int, overlap: int)
    requires ValidParams(chunkSize, overlap) && 0 <= overlap && 2 * overlap <= chunkSize
    requires chunkSize - overlap < |text| <= chunkSize
    ensures Chunks(text, chunkSize, overlap) == [Strip(text), Strip(text[chunkSize - overlap..])]
  {
    var second := chunkSize - overlap;
    var rest := Pieces(text, Windows(text, chunkSize, overlap, second));
    assert Chunks(text, chunkSize, overlap) == [Strip(text)] + rest by {
      assert WindowEnd(text, chunkSize, 0) == chunkSize;
      assert Slice(text, 0, chunkSize) == text;
      PiecesStep(text, chunkSize, overlap, 0);
    }
    assert rest == [Strip(text[second..])] by {
      LastChunk(text, chunkSize, overlap, second);
    }
  }

  /** A text of `chunkSize + 1` characters whose only break sits just past
      the middle of the first window. */
  function StallText(chunkSize: nat): (t: string)
    ensures |t| == chunkSize + 1
  {
    seq(chunkSize + 1, i => if i == chunkSize / 2 + 1 then '.' else 'a')
  }

  /** `overlap < chunkSize` alone does not keep the cursor moving: the
      first window of StallText is cut back to `chunkSize / 2 + 2`
      characters, so when `2 * overlap > chunkSize + 2` the next cursor does
      not advance past 0. */
  lemma StallWithoutOverlapBound(chunkSize: int, overlap: int)
    requires 0 < chunkSize && overlap < chunkSize && 2 * overlap > chunkSize + 2
    ensures WindowEnd(StallText(chunkSize), chunkSize, 0) == chunkSize / 2 + 2
    ensures WindowEnd(StallText(chunkSize), chunkSize, 0) - overlap <= 0
  {
    var t := StallText(chunkSize);
    var m := chunkSize / 2 + 1;
    assert m < chunkSize && t[m] == '.';
    LastBreakIsLast(t, 0, chunkSize);
    var r := LastBreak(t, 0, chunkSize);
    assert m <= r;
    assert forall k :: m < k < chunkSize ==> t[k] == 'a';
    assert r == m;
  }

  /** With `overlap == chunkSize / 2 + 2` (below `chunkSize` once
      `chunkSize >= 5`) the cursor after the first window of StallText is
      exactly 0 again, so `chunk_text` cuts the same window over and over
      and never returns. */
  lemma StallForever(chunkSize: int)
    requires 5 <= chunkSize
    ensures var overlap := chunkSize / 2 + 2;
      && overlap < chunkSize && 2 * overlap > chunkSize + 2
      && WindowEnd(StallText(chunkSize), chunkSize, 0) - overlap == 0
  {
    StallWithoutOverlapBound(chunkSize, chunkSize / 2 + 2);
  }
}
