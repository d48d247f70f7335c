/** The effect that turns the stream of completion snapshots into insertions.
    Each value of `completion` is the whole text generated so far; the effect
    inserts what is new since the snapshot it saw last (`prev`) at the live
    selection and then remembers the snapshot. */
module Completion {
  import opened Document

  /** `completion.slice(prev.length)`: JavaScript clamps a start past the end
      to the end, so a snapshot no longer than `prev` yields the empty text. */
  function SnapshotDiff(prev: Text, completion: Text): (d: Text)
    ensures |completion| <= |prev| ==> d == []
    ensures prev <= completion ==> prev + d == completion
    ensures |d| == |completion| - Min(|prev|, |completion|)
    ensures completion == completion[..|completion| - |d|] + d
  {
    var k := Min(|prev|, |completion|);
    assert completion == completion[..k] + completion[k..];
    completion[k..]
  }

  /** The editor together with the last snapshot the effect has seen. */
  datatype Chunked = Chunked(editor: EditorState, prev: Text)

  /** One run of the chunk effect while an editor exists: insert the diff at
      the selection, then record the snapshot. */
  function ApplyChunk(c: Chunked, completion: Text): (r: Chunked)
    requires c.editor.Valid()
    ensures r.editor.Valid()
    ensures r.prev == completion
    ensures |completion| <= |c.prev| ==> r.editor == c.editor
    ensures |c.prev| < |completion| ==> r.editor == InsertContent(c.editor, completion[|c.prev|..])
    ensures c.prev <= completion ==> r.editor == InsertContent(c.editor, completion[|c.prev|..])
  {
    Chunked(InsertContent(c.editor, SnapshotDiff(c.prev, completion)), completion)
  }

  /** The effect run once per snapshot, in order. */
  function ApplyChunks(c: Chunked, snaps: seq<Text>): (r: Chunked)
    requires c.editor.Valid()
    ensures r.editor.Valid()
    decreases |snaps|
  {
    if snaps == [] then c else ApplyChunks(ApplyChunk(c, snaps[0]), snaps[1..])
  }

  /** The texts the effect inserts for a sequence of snapshots. */
  function Diffs(prev: Text, snaps: seq<Text>): (ds: seq<Text>)
    ensures |ds| == |snaps|
    decreases |snaps|
  {
    if snaps == [] then [] else [SnapshotDiff(prev, snaps[0])] + Diffs(snaps[0], snaps[1..])
  }

  function Concat(ts: seq<Text>): Text
    decreases |ts|
  {
    if ts == [] then [] else ts[0] + Concat(ts[1..])
  }

  /** Every snapshot extends the one before it (the first extends `prev`);
      repeating a snapshot is allowed. */
  predicate PrefixChain(prev: Text, snaps: seq<Text>)
    decreases |snaps|
  {
    snaps == [] || (prev <= snaps[0] && PrefixChain(snaps[0], snaps[1..]))
  }

  /** The last snapshot seen, `prev` when there is none. */
  function Last(prev: Text, snaps: seq<Text>): Text
  {
    if snaps == [] then prev else snaps[|snaps| - 1]
  }

  /** Re-running the effect with the snapshot it has just seen inserts
      nothing. */
  lemma ApplyChunkIdempotent(c: Chunked, completion: Text)
    requires c.editor.Valid()
    ensures ApplyChunk(ApplyChunk(c, completion), completion) == ApplyChunk(c, completion)
  {
  }

  /** For snapshots that extend one another, the inserted diffs concatenated
      onto the starting `prev` rebuild the final snapshot. */
  lemma {:induction false} DiffsRebuildSnapshot(prev: Text, snaps: seq<Text>)
    requires PrefixChain(prev, snaps)
    ensures prev + Concat(Diffs(prev, snaps)) == Last(prev, snaps)
    decreases |snaps|
  {
    if snaps != [] {
      var c, rest := snaps[0], snaps[1..];
      DiffsRebuildSnapshot(c, rest);
      var d := SnapshotDiff(prev, c);
      assert Diffs(prev, snaps) == [d] + Diffs(c, rest);
      assert Concat([d] + Diffs(c, rest)) == d + Concat(Diffs(c, rest));
      assert Last(c, rest) == Last(prev, snaps);
      assert prev + d == c;
    }
  }

  /** Starting from `prev = ""`, the inserted diffs concatenated are the final
      snapshot. */
  lemma DiffsFromEmptyAreFinalSnapshot(snaps: seq<Text>)
    requires PrefixChain([], snaps)
    ensures Concat(Diffs([], snaps)) == Last([], snaps)
  {
    DiffsRebuildSnapshot([], snaps);
  }

  /** One run of the effect at a collapsed cursor puts the diff at the
      cursor and moves the cursor past it. */
  lemma ChunkAtCursor(c: Chunked, completion: Text)
    requires c.editor.Valid() && c.editor.sel.from == c.editor.sel.to
    ensures var r := ApplyChunk(c, completion);
      var d, p := SnapshotDiff(c.prev, completion), c.editor.sel.from;
      && r.editor.doc == c.editor.doc[..p] + d + c.editor.doc[p..]
      && r.editor.sel == Cursor(p + |d|)
  {
  }

  /** Splicing `d` in at `p` and then `g` right after it is splicing `d + g`
      in at `p`. */
  lemma SpliceTwice(doc: Text, p: nat, d: Text, g: Text)
    requires p <= |doc|
    ensures var e := doc[..p] + d + doc[p..];
      e[..p + |d|] + g + e[p + |d|..] == doc[..p] + (d + g) + doc[p..]
  {
  }

  /** With a collapsed cursor and no other edit in between, the effect lays
      the diffs down one after another at the cursor: the document gains
      their concatenation there and the cursor ends up after it. */
  lemma {:induction false} ChunksInsertAtCursor(c: Chunked, snaps: seq<Text>)
    requires c.editor.Valid() && c.editor.sel.from == c.editor.sel.to
    ensures var r := ApplyChunks(c, snaps);
      var g := Concat(Diffs(c.prev, snaps));
      var p := c.editor.sel.from;
      && r.editor.doc == c.editor.doc[..p] + g + c.editor.doc[p..]
      && r.editor.sel == Cursor(p + |g|)
      && r.prev == Last(c.prev, snaps)
    decreases |snaps|
  {
    var doc, p := c.editor.doc, c.editor.sel.from;
    if snaps == [] {
      assert doc == doc[..p] + doc[p..];
    } else {
      var d := SnapshotDiff(c.prev, snaps[0]);
      var c1 := ApplyChunk(c, snaps[0]);
      ChunkAtCursor(c, snaps[0]);
      ChunksInsertAtCursor(c1, snaps[1..]);
      var g1 := Concat(Diffs(snaps[0], snaps[1..]));
      assert Diffs(c.prev, snaps) == [d] + Diffs(snaps[0], snaps[1..]);
      assert Concat(Diffs(c.prev, snaps)) == d + g1;
      SpliceTwice(doc, p, d, g1);
      assert Last(snaps[0], snaps[1..]) == Last(c.prev, snaps);
    }
  }

  /** The finish handler's `setTextSelection`: select the `|completion|`
      characters right before the selection start; the selection cannot
      reach before the start of the document. */
  function FinishSelection(s: EditorState, completion: Text): (r: EditorState)
    requires s.Valid()
    ensures r.Valid() && r.doc == s.doc
    ensures r.sel.to == s.sel.from
    ensures |completion| <= s.sel.from ==>
      r.sel.from == s.sel.from - |completion| && r.sel.to - r.sel.from == |completion|
    ensures s.sel.from < |completion| ==> r.sel.from == 0
  {
    SetTextSelection(s, s.sel.from - |completion|, s.sel.from)
  }

  /** The whole stream followed by the finish handler: from a cursor at `p`
      and `prev = ""`, a stream of snapshots that extend one another leaves
      the final snapshot written at `p`, and the finish selection of its
      length spans exactly that text. */
  lemma StreamThenFinish(e: EditorState, snaps: seq<Text>)
    requires e.Valid() && e.sel.from == e.sel.to
    requires PrefixChain([], snaps)
    ensures var r := ApplyChunks(Chunked(e, []), snaps).editor;
      var text, p := Last([], snaps), e.sel.from;
      var f := FinishSelection(r, text);
      && r.doc == e.doc[..p] + text + e.doc[p..]
      && f.doc == r.doc
      && f.sel == Selection(p, p + |text|)
      && f.doc[f.sel.from..f.sel.to] == text
  {
    ChunksInsertAtCursor(Chunked(e, []), snaps);
    DiffsFromEmptyAreFinalSnapshot(snaps);
    var r := ApplyChunks(Chunked(e, []), snaps).editor;
    var text, p := Last([], snaps), e.sel.from;
    assert r.doc[p..p + |text|] == text by {
      assert r.doc == (e.doc[..p] + text) + e.doc[p..];
    }
  }
}
