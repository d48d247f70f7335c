/** The `Editor` component's edit-session controller: the state its hooks keep
    across renders and the handlers that change it. The React state, refs and
    the Tiptap editor become fields of one object; each handler is a method
    that runs to completion, as the single-threaded browser runs it. */
module EditorSession {
  import opened Document
  import opened Trigger
  import opened Completion

  /** A value the hydration can use. `Empty` stands for the values JavaScript
      treats as false (`undefined`, `null`, `""`), which `if (value)` skips;
      `Present` for a document, given by its plain text. */
  datatype Stored = Empty | Present(text: Text)

  class Session {
    /** Props of the component. */
    const defaultValue: Stored
    const disableLocalStorage: bool

    /** `editor` from `useEditor`: it does not exist on the first render. */
    var hasEditor: bool
    /** The editor's document and selection. */
    var doc: Text
    var sel: Selection

    /** `content` from `useLocalStorage(storageKey, defaultValue)`. */
    var content: Stored
    var hydrated: bool
    var isLoadingOutside: bool
    /** `isLoading` of `useCompletion`, as the hook last reported it. */
    var isLoading: bool
    /** `prev.current`, the last snapshot the chunk effect has seen. */
    var prev: Text

    /** The prompts passed to `complete`, oldest first. */
    var prompts: seq<Text>
    /** The documents the `onUpdate` prop was called with, oldest first. */
    var updatesNotified: seq<Text>
    /** A call of `debouncedUpdates` is waiting for its timer. */
    var savePending: bool
    /** The documents the `onDebouncedUpdate` prop was called with. */
    var debouncedNotified: seq<Text>

    /** The selection lies inside the document. */
    ghost predicate Valid()
      reads this
    {
      sel.from <= sel.to <= |doc|
    }

    function State(): (s: EditorState)
      reads this
      ensures s.doc == doc && s.sel == sel
    {
      EditorState(doc, sel)
    }

    /** The first render: every hook holds its initial value. `stored` is what
        `useLocalStorage` yields for the storage key. */
    constructor (defaultValue: Stored, disableLocalStorage: bool, stored: Stored)
      ensures Valid()
      ensures this.defaultValue == defaultValue && this.disableLocalStorage == disableLocalStorage
      ensures content == stored
      ensures !hasEditor && doc == [] && sel == Cursor(0)
      ensures !hydrated && !isLoadingOutside && !isLoading && prev == []
      ensures prompts == [] && updatesNotified == [] && !savePending && debouncedNotified == []
    {
      this.defaultValue := defaultValue;
      this.disableLocalStorage := disableLocalStorage;
      content := stored;
      hasEditor, doc, sel := false, [], Cursor(0);
      hydrated, isLoadingOutside, isLoading, prev := false, false, false, [];
      prompts, updatesNotified, savePending, debouncedNotified := [], [], false, [];
    }

    /** `useEditor` has created the (empty) editor. */
    method CreateEditor()
      requires Valid() && !hasEditor
      modifies this
      ensures Valid() && hasEditor
      ensures doc == old(doc) && sel == old(sel)
      ensures content == old(content) && hydrated == old(hydrated) && prev == old(prev)
      ensures isLoading == old(isLoading) && isLoadingOutside == old(isLoadingOutside)
      ensures prompts == old(prompts) && updatesNotified == old(updatesNotified)
      ensures savePending == old(savePending) && debouncedNotified == old(debouncedNotified)
    {
      hasEditor := true;
    }

    /** A transaction of the user's (typing, deleting, moving the cursor)
        leaves the editor in state `s`. Tiptap then delivers an update event,
        that is, a call of `OnUpdate`. */
    method UserTransaction(s: EditorState)
      requires Valid() && hasEditor && s.Valid()
      modifies this
      ensures Valid() && State() == s && hasEditor
      ensures content == old(content) && hydrated == old(hydrated) && prev == old(prev)
      ensures isLoading == old(isLoading) && isLoadingOutside == old(isLoadingOutside)
      ensures prompts == old(prompts) && updatesNotified == old(updatesNotified)
      ensures savePending == old(savePending) && debouncedNotified == old(debouncedNotified)
    {
      doc, sel := s.doc, s.sel;
    }

    /** The `onUpdate` option of `useEditor`. When the two characters before
        the cursor are `"??"` and nothing is loading, it consumes the shortcut
        and asks for a completion of the text before the cursor; otherwise it
        calls the `onUpdate` prop and schedules the debounced save. The two
        paths exclude each other: the shortcut path schedules no save. */
    method OnUpdate() returns (triggered: bool)
      requires Valid() && hasEditor
      modifies this
      ensures Valid()
      ensures triggered == Triggers(old(State()), old(isLoading))
      ensures triggered ==>
        && State() == DeleteTrigger(old(State()))
        && isLoadingOutside
        && prompts == old(prompts) + [CompletionPrompt(State())]
        && updatesNotified == old(updatesNotified)
        && savePending == old(savePending)
      ensures !triggered ==>
        && State() == old(State())
        && isLoadingOutside == old(isLoadingOutside)
        && prompts == old(prompts)
        && updatesNotified == old(updatesNotified) + [doc]
        && savePending
      ensures hasEditor && content == old(content) && hydrated == old(hydrated) && prev == old(prev)
      ensures isLoading == old(isLoading) && debouncedNotified == old(debouncedNotified)
    {
      if Triggers(State(), isLoading) {
        isLoadingOutside := true;
        var s := DeleteTrigger(State());
        doc, sel := s.doc, s.sel;
        prompts := prompts + [CompletionPrompt(State())];
        triggered := true;
      } else {
        updatesNotified := updatesNotified + [doc];
        savePending := true;
        triggered := false;
      }
    }

    /** The effect that inserts the generated text, run with the values
        `useCompletion` currently reports: the snapshot `completion` and
        `loading`. The text new since `prev` goes in at the live selection
        (nowhere when there is no editor yet), `prev` becomes the snapshot, and
        once loading has stopped the outside-loading flag is cleared. */
    method OnCompletionChange(completion: Text, loading: bool)
      requires Valid()
      modifies this
      ensures Valid()
      ensures prev == completion && isLoading == loading
      ensures hasEditor ==>
        Chunked(State(), prev) == ApplyChunk(Chunked(old(State()), old(prev)), completion)
      ensures !hasEditor ==> State() == old(State())
      ensures isLoadingOutside == (old(isLoadingOutside) && loading)
      ensures hasEditor == old(hasEditor) && content == old(content) && hydrated == old(hydrated)
      ensures prompts == old(prompts) && updatesNotified == old(updatesNotified)
      ensures savePending == old(savePending) && debouncedNotified == old(debouncedNotified)
    {
      isLoading := loading;
      var c := ApplyChunk(Chunked(State(), prev), completion);
      prev := completion;
      if hasEditor {
        doc, sel := c.editor.doc, c.editor.sel;
      }
      if !loading {
        isLoadingOutside := false;
      }
    }

    /** `onFinish(prompt, completion)`: select the last `|completion|`
        characters before the cursor, so that they span the generated text
        when it was all inserted there. */
    method OnFinish(completion: Text)
      requires Valid()
      modifies this
      ensures Valid()
      ensures hasEditor ==> State() == FinishSelection(old(State()), completion)
      ensures !hasEditor ==> State() == old(State())
      ensures hasEditor == old(hasEditor) && content == old(content) && hydrated == old(hydrated)
      ensures prev == old(prev) && isLoading == old(isLoading) && isLoadingOutside == old(isLoadingOutside)
      ensures prompts == old(prompts) && updatesNotified == old(updatesNotified)
      ensures savePending == old(savePending) && debouncedNotified == old(debouncedNotified)
    {
      if hasEditor {
        var s := FinishSelection(State(), completion);
        sel := s.sel;
      }
    }

    /** The hydration effect. It does something only while an editor exists
        and the session is not yet hydrated, with `defaultValue` when local
        storage is disabled and the stored content otherwise, and only when
        that value is present; it then sets the document and marks the
        session hydrated, so it never runs again. */
    method Hydrate()
      requires Valid()
      modifies this
      ensures Valid()
      ensures var value := if disableLocalStorage then defaultValue else content;
        if old(hasEditor && !hydrated) && value.Present? then
          && State() == SetContent(value.text)
          && hydrated
        else
          && State() == old(State())
          && hydrated == old(hydrated)
      ensures hasEditor == old(hasEditor) && content == old(content) && prev == old(prev)
      ensures isLoading == old(isLoading) && isLoadingOutside == old(isLoadingOutside)
      ensures prompts == old(prompts) && updatesNotified == old(updatesNotified)
      ensures savePending == old(savePending) && debouncedNotified == old(debouncedNotified)
    {
      if !hasEditor || hydrated {
        return;
      }
      var value := if disableLocalStorage then defaultValue else content;
      if value.Present? {
        var s := SetContent(value.text);
        doc, sel := s.doc, s.sel;
        hydrated := true;
      }
    }

    /** The debounce timer fires: `debouncedUpdates` passes the document to
        `onDebouncedUpdate` and writes it to local storage unless local
        storage is disabled. Several calls made while the timer was pending
        are served by this one run; without a pending call nothing happens. */
    method FlushDebounced()
      requires Valid()
      modifies this
      ensures Valid()
      ensures !savePending
      ensures old(savePending) ==>
        && debouncedNotified == old(debouncedNotified) + [doc]
        && content == (if disableLocalStorage then old(content) else Present(doc))
      ensures !old(savePending) ==>
        debouncedNotified == old(debouncedNotified) && content == old(content)
      ensures hasEditor == old(hasEditor) && State() == old(State()) && hydrated == old(hydrated)
      ensures prev == old(prev) && isLoading == old(isLoading) && isLoadingOutside == old(isLoadingOutside)
      ensures prompts == old(prompts) && updatesNotified == old(updatesNotified)
    {
      if savePending {
        debouncedNotified := debouncedNotified + [doc];
        if !disableLocalStorage {
          content := Present(doc);
        }
        savePending := false;
      }
    }
  }

  /** A walk through one shortcut use, with the update events Tiptap itself
      emits. The note "hello " is hydrated from storage with the cursor at its
      end, the user types "??", and the generation service streams "world"
      and then "world!". `deleteRange` and `insertContent` each emit an update
      event of their own, which takes the normal path: unlike the shortcut
      event, they do schedule the debounced save while the text streams in. */
  method ShortcutScenario()
  {
    var s := TypeShortcut();
    StreamWorld(s);
    assert s.doc == "hello world!" && s.sel == Selection(6, 12);
    assert s.savePending && s.debouncedNotified == [];
  }

  /** Hydrate "hello ", type "??" at its end, and let Tiptap deliver the update
      events of the keystroke and of the deletion it causes. */
  method TypeShortcut() returns (s: Session)
    ensures fresh(s) && s.Valid() && s.hasEditor
    ensures s.doc == "hello " && s.sel == Cursor(6)
    ensures s.prompts == ["hello "] && s.isLoadingOutside && !s.isLoading && s.prev == []
    ensures s.savePending && s.debouncedNotified == []
  {
    s := new Session(Empty, false, Present("hello "));
    s.CreateEditor();
    s.Hydrate();
    assert s.doc == "hello " && s.sel == Cursor(6);

    s.UserTransaction(EditorState("hello ??", Cursor(8)));
    var triggered := s.OnUpdate();
    assert triggered;
    assert s.doc == "hello " by {
      assert s.doc == "hello ??"[..6] + "hello ??"[8..];
    }
    assert s.sel == Cursor(6) && s.isLoadingOutside && !s.savePending;
    assert s.prompts == ["hello "] by {
      assert s.doc[0..6] == s.doc;
    }

    // the update event of deleteRange
    triggered := s.OnUpdate();
    assert !triggered && s.savePending;
  }

  /** The service streams "world" and then "world!", with the update event of
      each insertion, and then finishes. */
  method StreamWorld(s: Session)
    requires s.Valid() && s.hasEditor
    requires s.doc == "hello " && s.sel == Cursor(6) && s.savePending && s.debouncedNotified == []
    modifies s
    ensures s.Valid() && s.doc == "hello world!" && s.sel == Selection(6, 12)
    ensures !s.isLoadingOutside && s.savePending && s.debouncedNotified == []
  {
    s.OnCompletionChange("", true);
    s.OnCompletionChange("world", true);
    assert s.doc == "hello world" && s.sel == Cursor(11);
    // the update event of insertContent: nothing triggers while loading
    var triggered := s.OnUpdate();
    assert !triggered;

    s.OnCompletionChange("world!", true);
    assert "world!"[5..] == "!";
    assert s.doc == "hello world!" && s.sel == Cursor(12);
    // the update event of this insertion
    triggered := s.OnUpdate();
    assert !triggered;
    s.OnFinish("world!");
    assert s.sel == Selection(6, 12);
    s.OnCompletionChange("world!", false);
  }
}
