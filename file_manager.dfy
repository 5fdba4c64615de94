/**
 * The sidebar's file manager (components/sidebar/file-manager.tsx): the form
 * that creates a file from a typed name, the upload of a file picked from
 * disk, and the per-file select and delete menu entries. The component's two
 * `useState` fields and the store it dispatches to are the fields of a
 * class; `Date.now().toString()` and `new Date()` are the caller's `id` and
 * `stamp`.
 */
module FileManager {
  import opened Wrappers
  import JsText
  import opened PlaygroundTypes
  import Store = PlaygroundStore

  const MovePiece1 := "// New Move file\n"
  const MovePiece2 := "module hello_world {\n    // Your code here\n}"
  /** The content of a newly created `.move` file. */
  const MoveTemplate := MovePiece1 + MovePiece2

  /** A file's type from its name: `.move` first, then `.toml`, anything else is Markdown. */
  function TypeOf(name: string): (t: FileType)
    ensures t == Move <==> JsText.EndsWith(name, ".move")
    ensures t == Toml <==> !JsText.EndsWith(name, ".move") && JsText.EndsWith(name, ".toml")
    ensures t == Md <==> !JsText.EndsWith(name, ".move") && !JsText.EndsWith(name, ".toml")
  {
    if JsText.EndsWith(name, ".move") then Move
    else if JsText.EndsWith(name, ".toml") then Toml
    else Md
  }

  /** The extension decides the type, whatever comes before it. */
  lemma TypeOfExtension(stem: string)
    ensures TypeOf(stem + ".move") == Move
    ensures TypeOf(stem + ".toml") == Toml
  {
    assert (stem + ".move")[|stem| + 5 - 5..] == ".move";
    assert (stem + ".toml")[|stem| + 5 - 5..] == ".toml";
    assert ".toml" != ".move" by { assert ".toml"[1] != ".move"[1]; }
  }

  /** The name is not trimmed before its type is read: a trailing space makes a Markdown file. */
  lemma PaddedNameIsMarkdown(stem: string)
    ensures TypeOf(stem + ".move ") == Md
  {
    var n := stem + ".move ";
    assert n[|n| - 1] == ' ';
    assert n[|n| - 5..][4] == n[|n| - 1];
  }

  /** A created file: named and placed by the typed name, with the template only when it is a Move file. */
  function NewFile(name: string, id: string, stamp: nat): (f: FileItem)
    ensures f.id == id && f.name == name && f.path == name && f.lastModified == stamp
    ensures f.fileType == TypeOf(name)
    ensures f.fileType == Move ==> f.content == MoveTemplate
    ensures f.fileType != Move ==> f.content == ""
  {
    var t := TypeOf(name);
    FileItem(id, name, if t == Move then MoveTemplate else "", t, name, stamp)
  }

  /** A file the browser hands over: its name, untouched, and its text. */
  datatype Upload = Upload(name: string, content: string)

  /** An uploaded file keeps the picked file's name and content as they are. */
  function UploadedFile(u: Upload, id: string, stamp: nat): (f: FileItem)
    ensures f.id == id && f.name == u.name && f.path == u.name && f.content == u.content
    ensures f.fileType == TypeOf(u.name) && f.lastModified == stamp
  {
    FileItem(id, u.name, u.content, TypeOf(u.name), u.name, stamp)
  }

  /** Adding a file and then selecting it appends it and makes it the active file; nothing else changes. */
  lemma AddThenSelect(s: Store.State, f: FileItem)
    ensures Store.Reduce(Store.Reduce(s, Store.AddFile(f)), Store.SetActiveFile(Some(f.id))) ==
      s.(files := s.files + [f], activeFileId := Some(f.id))
  {
  }

  class FileManager {
    /** The provider's state, as the component's `dispatch` calls change it. */
    var state: Store.State
    var newFileName: string
    var showNewFile: bool

    constructor (s: Store.State)
      ensures state == s && newFileName == "" && !showNewFile
    {
      state := s;
      newFileName := "";
      showNewFile := false;
    }

    /** The "New File" button opens the name input. */
    method OpenNewFile()
      modifies this
      ensures showNewFile && state == old(state) && newFileName == old(newFileName)
    {
      showNewFile := true;
    }

    /** Typing in the name input. */
    method TypeName(name: string)
      modifies this
      ensures newFileName == name && state == old(state) && showNewFile == old(showNewFile)
    {
      newFileName := name;
    }

    /** Escape in the name input hides it and keeps the typed name. */
    method Escape()
      modifies this
      ensures !showNewFile && state == old(state) && newFileName == old(newFileName)
    {
      showNewFile := false;
    }

    /**
     * `createNewFile` (the button and the Enter key): a blank name changes
     * nothing; otherwise the new file is appended and made active, and the
     * input is cleared and hidden.
     */
    method CreateNewFile(id: string, stamp: nat)
      modifies this
      ensures JsText.Trim(old(newFileName)) == "" ==>
        state == old(state) && newFileName == old(newFileName) && showNewFile == old(showNewFile)
      ensures JsText.Trim(old(newFileName)) != "" ==>
        state == old(state).(files := old(state).files + [NewFile(old(newFileName), id, stamp)], activeFileId := Some(id)) &&
        newFileName == "" && !showNewFile
    {
      if JsText.Trim(newFileName) == "" {
        return;
      }
      var f := NewFile(newFileName, id, stamp);
      state := Store.Reduce(state, Store.AddFile(f));
      state := Store.Reduce(state, Store.SetActiveFile(Some(f.id)));
      newFileName := "";
      showNewFile := false;
    }

    /**
     * `handleFileUpload`: with no file picked nothing happens; otherwise the
     * file read from disk is appended and made active. The name input is not
     * touched.
     */
    method HandleFileUpload(picked: Option<Upload>, id: string, stamp: nat)
      modifies this
      ensures picked.None? ==> state == old(state)
      ensures picked.Some? ==>
        state == old(state).(files := old(state).files + [UploadedFile(picked.value, id, stamp)], activeFileId := Some(id))
      ensures newFileName == old(newFileName) && showNewFile == old(showNewFile)
    {
      if picked.None? {
        return;
      }
      var f := UploadedFile(picked.value, id, stamp);
      state := Store.Reduce(state, Store.AddFile(f));
      state := Store.Reduce(state, Store.SetActiveFile(Some(f.id)));
    }

    /** Clicking a file in the list selects it. */
    method Select(id: string)
      modifies this
      ensures state == old(state).(activeFileId := Some(id))
      ensures newFileName == old(newFileName) && showNewFile == old(showNewFile)
    {
      state := Store.Reduce(state, Store.SetActiveFile(Some(id)));
    }

    /** The menu's delete entry removes the file, and clears the selection when it was the active one. */
    method Delete(id: string)
      modifies this
      ensures state == Store.Reduce(old(state), Store.DeleteFile(id))
      ensures newFileName == old(newFileName) && showNewFile == old(showNewFile)
    {
      state := Store.Reduce(state, Store.DeleteFile(id));
    }
  }
}
