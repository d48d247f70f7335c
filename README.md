# Edit-session controller of the inke editor, in Dafny

This project models the controller inside the `Editor` component of inke's
core package (`packages/core/src/ui/editor/index.tsx`). Around the Tiptap
editor it keeps a little state: the stored content, a `hydrated` flag, an
`isLoadingOutside` flag, the completion hook's `isLoading`, and the last
completion snapshot `prev`. Five handlers change that state:

- the editor's update handler, which spots the `"??"` autocomplete shortcut;
- the effect that inserts streamed completion text;
- the completion's finish handler, which selects the generated text;
- the hydration effect;
- the debounced save.

The document is modelled as its plain text plus a selection `[from, to)` of
offsets into that text.

Files and modules:

- `document.dfy` (module `Document`): the plain-text document and its
  selection (`EditorState`). It also holds the Tiptap commands the controller
  issues, written as functions: `deleteRange`, `insertContent`,
  `setTextSelection` and `setContent`. It also holds `getPrevText`.
- `trigger.dfy` (module `Trigger`): the test for the shortcut, the deletion of
  the shortcut, and the prompt sent with the completion request.
- `completion.dfy` (module `Completion`): how a snapshot becomes a diff, one
  run of the chunk effect and a whole stream of runs, and the finish
  selection. It also holds the lemmas about streams of snapshots.
- `session.dfy` (module `EditorSession`): the class `Session`. Its fields are
  the component's state, and each handler is a method whose postcondition
  gives the whole new state in terms of the functions above. A client method
  walks through one use of the shortcut.

Assumptions:

- `getPrevText` is imported from a file that is not part of this model.
  `Document.PrevText` assumes it returns the plain text right before the
  selection start, at most `chars` characters of it.
- `insertContent` replaces the selection and leaves a collapsed cursor right
  after the inserted text. Inserting the empty text does nothing, because
  Tiptap does not dispatch an empty fragment.
- `setTextSelection` clamps both ends into the document.
- `setContent` puts the cursor at the end of the new text and emits no update
  event.
- `if (value)` skips the values JavaScript treats as false. These are
  modelled as `Stored.Empty`.

Some of the code's behaviour differs from what a reader might expect of such
a controller. The model follows the code:

- Generated text goes in at the live selection (`insertContent` at line 176).
  It is not inserted at an anchor offset captured when the completion
  started.
- The finish selection is counted back from the live cursor.
- There is no save-status state machine.
- Saves are not suppressed while a completion streams. Only the one update
  event that consumes the shortcut skips `debouncedUpdates`.
- Tiptap emits an update event of its own for the `deleteRange` of the
  shortcut and for every `insertContent` of a chunk. Those events take the
  normal path, so they call `onUpdate` and schedule a save while the text is
  still streaming. `EditorSession.ShortcutScenario` shows this.

## Model

| member | source | states |
|---|---|---|
| Document.PrevText | packages/core/src/ui/editor/index.tsx:128-130 | the text returned is the tail of the text before the selection start, of length min(from, chars) |
| Document.DeleteRange | packages/core/src/ui/editor/index.tsx:133-136 | the document loses exactly `[lo, hi)`, keeping the text on both sides; a selection after the range shifts back by its width, a selection before it stays |
| Document.InsertContent | packages/core/src/ui/editor/index.tsx:176 | the text replaces the selection with the rest of the document kept on both sides, and the cursor lands right after it; the empty text changes nothing |
| Document.SetTextSelection | packages/core/src/ui/editor/index.tsx:157-160 | the document is unchanged, the new selection lies inside it, and an ordered request is taken with each end clamped into `[0, length]`, so a range already inside the document is taken as it is |
| Document.SetContent | packages/core/src/ui/editor/index.tsx:190 | the document becomes the value's text with the cursor at its end |
| Trigger.Triggers | packages/core/src/ui/editor/index.tsx:128-131 | the shortcut path is taken if and only if the cursor is at offset 2 or later, the two characters before it are both `?`, and no completion is loading |
| Trigger.DeleteTrigger | packages/core/src/ui/editor/index.tsx:132-136 | the document shrinks by exactly 2, losing just `[from-2, from)`, and both ends of the selection move back by 2 |
| Trigger.TriggerRemovesToken | packages/core/src/ui/editor/index.tsx:131-136 | when the shortcut fires, the two deleted characters are `"??"`: putting them back at the new cursor gives the old document |
| Trigger.CompletionPrompt | packages/core/src/ui/editor/index.tsx:137-141 | the prompt is at most 5000 characters, is the tail of the text before the cursor, and is that whole text when it is shorter |
| Trigger.TriggerPromptPrecedesToken | packages/core/src/ui/editor/index.tsx:133-141 | the prompt sent after the deletion is the tail, of length min(from-2, 5000), of the text that preceded the shortcut in the original document |
| Completion.SnapshotDiff | packages/core/src/ui/editor/index.tsx:174 | the diff is a suffix of the snapshot; it is empty when the snapshot is no longer than `prev`, and when the snapshot extends `prev`, `prev` plus the diff is the snapshot |
| Completion.ApplyChunk | packages/core/src/ui/editor/index.tsx:174-176 | `prev` becomes the snapshot; a snapshot no longer than `prev` (the same one again among them) leaves the editor unchanged; a longer one inserts the snapshot with its first `|prev|` characters dropped at the selection, whether or not it extends `prev` |
| Completion.ApplyChunks | packages/core/src/ui/editor/index.tsx:173-180 | running the effect once per snapshot keeps the selection inside the document |
| Completion.ApplyChunkIdempotent | packages/core/src/ui/editor/index.tsx:174-176 | running the effect again with the snapshot it has just seen changes nothing |
| Completion.DiffsRebuildSnapshot | packages/core/src/ui/editor/index.tsx:174-176 | for snapshots that each extend the one before, the starting `prev` followed by all inserted diffs is the last snapshot |
| Completion.DiffsFromEmptyAreFinalSnapshot | packages/core/src/ui/editor/index.tsx:170-176 | from `prev = ""`, the inserted diffs concatenated are exactly the final snapshot |
| Completion.ChunkAtCursor | packages/core/src/ui/editor/index.tsx:174-176 | at a collapsed cursor, one run of the effect splices its diff in at the cursor and moves the cursor past it |
| Completion.ChunksInsertAtCursor | packages/core/src/ui/editor/index.tsx:173-180 | at a collapsed cursor with no other edit in between, a stream of runs splices the concatenated diffs in at the cursor, puts the cursor after them, and leaves `prev` at the last snapshot |
| Completion.FinishSelection | packages/core/src/ui/editor/index.tsx:156-161 | the selection ends at the old cursor; it is `[cursor - n, cursor)`, of width n = the completion's length, when n is at most the cursor, and starts at 0 otherwise; the document is unchanged |
| Completion.StreamThenFinish | packages/core/src/ui/editor/index.tsx:156-180 | from a cursor at p and `prev = ""`, a stream of snapshots that extend one another writes the final snapshot at p, and the finish selection spans exactly `[p, p + length)`, which holds that text |
| EditorSession.Session.constructor | packages/core/src/ui/editor/index.tsx:101-105 | the first render: no editor yet, empty document, not hydrated, nothing loading, `prev = ""`, nothing requested, notified or pending |
| EditorSession.Session.CreateEditor | packages/core/src/ui/editor/index.tsx:119-150 | the editor comes to exist and nothing else changes |
| EditorSession.Session.OnUpdate | packages/core/src/ui/editor/index.tsx:126-148 | the shortcut path is taken exactly when `Triggers` holds. It then deletes the shortcut, sets `isLoadingOutside` and requests one completion with the prompt before the new cursor, and neither notifies `onUpdate` nor schedules a save. Otherwise it changes neither the document nor the flags, notifies `onUpdate` with the document and schedules the save |
| EditorSession.Session.OnCompletionChange | packages/core/src/ui/editor/index.tsx:173-180 | `prev` becomes the snapshot; with an editor, the document and selection are those of `ApplyChunk`; without one they stay; `isLoadingOutside` is false afterwards whenever loading has stopped and is otherwise kept |
| EditorSession.Session.OnFinish | packages/core/src/ui/editor/index.tsx:156-161 | with an editor, the selection becomes `FinishSelection` of the completion; nothing else changes |
| EditorSession.Session.Hydrate | packages/core/src/ui/editor/index.tsx:184-193 | it acts only with an editor and before hydration. It then uses `defaultValue` when local storage is disabled and the stored content otherwise, and only a present value replaces the document and sets `hydrated`. Once hydrated, the document is never reset |
| EditorSession.Session.FlushDebounced | packages/core/src/ui/editor/index.tsx:107-117 | a pending save notifies `onDebouncedUpdate` with the current document once, and writes it to storage exactly when local storage is not disabled; without a pending save nothing changes; the document is untouched |
| EditorSession.TypeShortcut | packages/core/src/ui/editor/index.tsx:126-148 | "hello ", with "??" typed at its end, becomes "hello " again with the cursor at 6. The prompt is "hello ". The deletion's own update event schedules a save |
| EditorSession.StreamWorld | packages/core/src/ui/editor/index.tsx:156-180 | streaming "", "world", "world!" and finishing turns "hello " into "hello world!" with the selection `[6, 12)` and `isLoadingOutside` cleared; a save is pending, none has been written |

## Left out

- React rendering is not modelled: JSX, the bubble menu, the image resizer, the "generating..." indicator and the click-to-focus wrapper (lines 195-225). These are user interface.
- `stop`, wired to the pause button (line 217), is not modelled. It belongs to the indicator UI. After a stop the model simply receives no further snapshots; already inserted text stays.
- Tiptap's node tree and its JSON and markdown projections (lines 108-110) are not modelled. The document is its plain text, and ProseMirror positions are taken to be plain-text offsets. `onDebouncedUpdate` is recorded with that text.
- The debounce timer of `use-debounce` and its timing are not modelled. `FlushDebounced` is the timer firing, so all calls made while a save is pending are served by that one run.
- The network stream of `useCompletion`, `toast` and the `@vercel/analytics` calls (lines 143, 162-167) are not modelled. They are foreign calls and I/O. A completion request is recorded by its prompt, and the hook's snapshots and `isLoading` are inputs of `OnCompletionChange`. The error handler only notifies, so it is left out too.
- `useLocalStorage` is not part of this model. The stored content is one field, and the constructor receives what the hook yields.
- `getPrevText` is not part of this model. `PrevText` states what it is assumed to return.
- EditorSession.Session.OnUpdate: Tiptap delivers the update events of the handler's own `deleteRange` synchronously. That means inside the handler, before `complete` is called. The model instead delivers them as later `OnUpdate` calls. The two differ only when the text before the shortcut itself ends in `"??"`: then the nested event takes the shortcut path a second time before the prompt is read.
- EditorSession.Session.OnCompletionChange: the update event Tiptap emits inside each chunk's `insertContent` is delivered by the model as a later `OnUpdate` call, as for `deleteRange`.
- Document.InsertContent: Tiptap passes a string through its HTML parser, so a chunk holding markup such as `<b>x</b>` is inserted as formatted content, not as its characters. The model inserts the characters.
- `Text` stands for the UTF-16 code units that JavaScript's `length` and `slice` and ProseMirror's positions count. A Dafny `char` is a Unicode scalar value, so characters outside the Basic Multilingual Plane are counted differently.
- EditorSession.Session.OnUpdate: the model reads the current `isLoading`. Depending on the Tiptap version, `useEditor` may keep the handler of the first render, whose `isLoading` is always false. That framework behaviour is not modelled.
- `apps/web/app/guide.tsx`, `apps/web/next.config.js` and `apps/web/app/manifest.ts` are not modelled. They are page UI, static configuration and constant metadata.
