/** The editor document, abstracted to its plain text, with the selection and
    the Tiptap commands the session controller issues on it. Offsets are
    positions in the plain text: 0 is before the first character and |doc| is
    after the last. */
module Document {

  type Text = seq<char>

  function Min(a: int, b: int): int { if a <= b then a else b }

  /** A selection `[from, to)`; a cursor is a selection with from == to. */
  datatype Selection = Selection(from: nat, to: nat)

  function Cursor(p: nat): Selection { Selection(p, p) }

  /** The editor's document together with its selection. */
  datatype EditorState = EditorState(doc: Text, sel: Selection) {
    predicate Valid() { sel.from <= sel.to <= |doc| }
  }

  /** `getPrevText(editor, { chars })`. Its definition is not part of this
      model; it is taken to be the plain text immediately before the selection
      start, at most `chars` characters of it (fewer when the cursor is nearer
      the start of the document). */
  function PrevText(s: EditorState, chars: nat): (r: Text)
    requires s.Valid()
    ensures |r| == Min(s.sel.from, chars)
    ensures s.doc[..s.sel.from] == s.doc[..s.sel.from - |r|] + r
  {
    var k := Min(s.sel.from, chars);
    assert s.doc[..s.sel.from] == s.doc[..s.sel.from - k] + s.doc[s.sel.from - k..s.sel.from];
    s.doc[s.sel.from - k..s.sel.from]
  }

  /** Where a position lands once `[lo, hi)` is deleted: positions before the
      range stay, positions after it move back by its width, positions inside
      it go to its start. */
  function MapThroughDeletion(pos: nat, lo: nat, hi: nat): (r: nat)
    requires lo <= hi
    ensures r <= pos
  {
    if pos <= lo then pos else if pos <= hi then lo else pos - (hi - lo)
  }

  /** `commands.deleteRange({ from: lo, to: hi })`. */
  function DeleteRange(s: EditorState, lo: nat, hi: nat): (r: EditorState)
    requires s.Valid() && lo <= hi <= |s.doc|
    ensures r.Valid()
    ensures |r.doc| == |s.doc| - (hi - lo)
    ensures r.doc[..lo] == s.doc[..lo] && r.doc[lo..] == s.doc[hi..]
    ensures s.sel.from >= hi ==> r.sel == Selection(s.sel.from - (hi - lo), s.sel.to - (hi - lo))
    ensures s.sel.to <= lo ==> r.sel == s.sel
  {
    var d := s.doc[..lo] + s.doc[hi..];
    assert d[..lo] == s.doc[..lo] && d[lo..] == s.doc[hi..];
    EditorState(d, Selection(MapThroughDeletion(s.sel.from, lo, hi), MapThroughDeletion(s.sel.to, lo, hi)))
  }

  /** `commands.insertContent(text)`: the text replaces the selection and the
      cursor ends up right after it. Tiptap refuses to dispatch an empty
      fragment, so inserting the empty text leaves document and selection as
      they were. */
  function InsertContent(s: EditorState, text: Text): (r: EditorState)
    requires s.Valid()
    ensures r.Valid()
    ensures text == [] ==> r == s
    ensures text != [] ==>
      && |r.doc| == |s.doc| - (s.sel.to - s.sel.from) + |text|
      && r.doc[..s.sel.from] == s.doc[..s.sel.from]
      && r.doc[s.sel.from..s.sel.from + |text|] == text
      && r.doc[s.sel.from + |text|..] == s.doc[s.sel.to..]
      && r.sel == Cursor(s.sel.from + |text|)
  {
    if text == [] then s
    else
      var from := s.sel.from;
      var d := s.doc[..from] + text + s.doc[s.sel.to..];
      assert d[..from] == s.doc[..from];
      assert d[from..from + |text|] == text;
      assert d[from + |text|..] == s.doc[s.sel.to..];
      EditorState(d, Cursor(from + |text|))
  }

  /** A requested offset, clamped into the document `[0, n]`. */
  function Clamp(p: int, n: nat): (r: nat)
    ensures r <= n
    ensures 0 <= p <= n ==> r == p
    ensures p < 0 ==> r == 0
    ensures n < p ==> r == n
  {
    if p < 0 then 0 else if p > n then n else p
  }

  /** `commands.setTextSelection({ from, to })`: both ends are clamped into the
      document; the document itself does not change. */
  function SetTextSelection(s: EditorState, from: int, to: int): (r: EditorState)
    ensures r.Valid()
    ensures r.doc == s.doc
    ensures from <= to ==> r.sel == Selection(Clamp(from, |s.doc|), Clamp(to, |s.doc|))
    ensures 0 <= from <= to <= |s.doc| ==> r.sel == Selection(from, to)
  {
    var a, b := Clamp(from, |s.doc|), Clamp(to, |s.doc|);
    EditorState(s.doc, if a <= b then Selection(a, b) else Selection(b, a))
  }

  /** `commands.setContent(value)` during hydration: the document becomes the
      value's text. ProseMirror maps a position inside a replaced range to the
      end of its replacement, so the cursor lands at the end of the text. */
  function SetContent(text: Text): (r: EditorState)
    ensures r.Valid() && r.doc == text && r.sel == Cursor(|text|)
  {
    EditorState(text, Cursor(|text|))
  }
}
