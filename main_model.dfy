/** model/MainModel.java: the editor state behind the main window. It
    tracks whether the query text was modified since it was last saved or
    loaded, which file it belongs to and which connection is selected, and
    it notifies registered listeners. The two Swing documents are modelled
    as their text, and every listener call is appended to an event log. */
module MainModels {
  import opened JavaText
  import opened Results

  /** A listener object, known by its identity. */
  type ListenerId = nat

  /** A java.io.File, known by its path. */
  type FileRef = JString

  /** A ConnectionSettings object, known by its identity. */
  type ConnectionRef = nat

  datatype DocumentKind = QueryDocument | DatasetDocument

  /** One listener call: editorStateChanged(model, modified, file) or
      connectionChanged(model, connection). */
  datatype ModelEvent =
    | EditorStateChanged(listener: ListenerId, modified: bool, file: Option<FileRef>)
    | ConnectionChanged(listener: ListenerId, connection: Option<ConnectionRef>)

  /** The calls of fireEditorStateChanged: one per listener, in
      registration order, each with the same state. */
  function EditorNotices(listeners: seq<ListenerId>, modified: bool, file: Option<FileRef>): (r: seq<ModelEvent>)
    ensures |r| == |listeners|
    ensures forall k :: 0 <= k < |r| ==> r[k] == EditorStateChanged(listeners[k], modified, file)
  {
    if listeners == [] then []
    else
      EditorNotices(listeners[..|listeners| - 1], modified, file)
      + [EditorStateChanged(listeners[|listeners| - 1], modified, file)]
  }

  /** The calls of fireConnectionChanged. */
  function ConnectionNotices(listeners: seq<ListenerId>, connection: Option<ConnectionRef>): (r: seq<ModelEvent>)
    ensures |r| == |listeners|
    ensures forall k :: 0 <= k < |r| ==> r[k] == ConnectionChanged(listeners[k], connection)
  {
    if listeners == [] then []
    else
      ConnectionNotices(listeners[..|listeners| - 1], connection)
      + [ConnectionChanged(listeners[|listeners| - 1], connection)]
  }

  /** List.remove(Object): drops the first occurrence, if any. */
  function RemoveFirst(listeners: seq<ListenerId>, listener: ListenerId): seq<ListenerId>
  {
    if listeners == [] then []
    else if listeners[0] == listener then listeners[1..]
    else [listeners[0]] + RemoveFirst(listeners[1..], listener)
  }

  /** The events of a notification that reach a given listener. */
  predicate Reaches(events: seq<ModelEvent>, listener: ListenerId)
  {
    exists k :: 0 <= k < |events| && events[k].listener == listener
  }

  class MainModel {
    var queryText: JString
    var datasetText: JString
    var modified: bool
    var file: Option<FileRef>
    var currentConnection: Option<ConnectionRef>
    var connectionListeners: seq<ListenerId>
    var editorStateListeners: seq<ListenerId>
    var events: seq<ModelEvent>

    /** A new model: empty documents, not modified, no file, no connection,
        no listeners. */
    constructor()
      ensures queryText == [] && datasetText == []
      ensures !modified && file == None && currentConnection == None
      ensures connectionListeners == [] && editorStateListeners == []
      ensures events == []
    {
      queryText := [];
      datasetText := [];
      modified := false;
      file := None;
      currentConnection := None;
      connectionListeners := [];
      editorStateListeners := [];
      events := [];
    }

    predicate HasFile()
      reads this
    {
      file.Some?
    }

    function TextOf(document: DocumentKind): JString
      reads this
    {
      match document
      case QueryDocument => queryText
      case DatasetDocument => datasetText
    }

    method FireEditorStateChanged()
      modifies this
      ensures events == old(events) + EditorNotices(editorStateListeners, modified, file)
      ensures queryText == old(queryText) && datasetText == old(datasetText)
      ensures modified == old(modified) && file == old(file) && currentConnection == old(currentConnection)
      ensures connectionListeners == old(connectionListeners) && editorStateListeners == old(editorStateListeners)
    {
      var log := events;
      for i := 0 to |editorStateListeners|
        invariant log == events + EditorNotices(editorStateListeners[..i], modified, file)
      {
        assert editorStateListeners[..i + 1][..i] == editorStateListeners[..i];
        log := log + [EditorStateChanged(editorStateListeners[i], modified, file)];
      }
      assert editorStateListeners[..|editorStateListeners|] == editorStateListeners;
      events := log;
    }

    method FireConnectionChanged()
      modifies this
      ensures events == old(events) + ConnectionNotices(connectionListeners, currentConnection)
      ensures queryText == old(queryText) && datasetText == old(datasetText)
      ensures modified == old(modified) && file == old(file) && currentConnection == old(currentConnection)
      ensures connectionListeners == old(connectionListeners) && editorStateListeners == old(editorStateListeners)
    {
      var log := events;
      for i := 0 to |connectionListeners|
        invariant log == events + ConnectionNotices(connectionListeners[..i], currentConnection)
      {
        assert connectionListeners[..i + 1][..i] == connectionListeners[..i];
        log := log + [ConnectionChanged(connectionListeners[i], currentConnection)];
      }
      assert connectionListeners[..|connectionListeners|] == connectionListeners;
      events := log;
    }

    /** The document listener's callback: a change of the query document
        marks the model modified and notifies the editor listeners; a
        change of any other document is ignored. */
    method SetModified(document: DocumentKind)
      modifies this
      ensures document == QueryDocument ==>
                modified && events == old(events) + EditorNotices(editorStateListeners, true, file)
      ensures document != QueryDocument ==> modified == old(modified) && events == old(events)
      ensures queryText == old(queryText) && datasetText == old(datasetText)
      ensures file == old(file) && currentConnection == old(currentConnection)
      ensures connectionListeners == old(connectionListeners) && editorStateListeners == old(editorStateListeners)
    {
      if document == QueryDocument {
        modified := true;
        FireEditorStateChanged();
      }
    }

    /** Document.insertString: only a non-empty insertion into the query
        document reaches the document listener. */
    method InsertString(document: DocumentKind, offset: nat, text: JString)
      modifies this
      requires offset <= |TextOf(document)|
      ensures TextOf(document) == old(TextOf(document))[..offset] + text + old(TextOf(document))[offset..]
      ensures document == QueryDocument ==> datasetText == old(datasetText)
      ensures document == DatasetDocument ==> queryText == old(queryText)
      ensures document == QueryDocument && text != [] ==>
                modified && events == old(events) + EditorNotices(editorStateListeners, true, file)
      ensures document == DatasetDocument || text == [] ==> modified == old(modified) && events == old(events)
      ensures file == old(file) && currentConnection == old(currentConnection)
      ensures connectionListeners == old(connectionListeners) && editorStateListeners == old(editorStateListeners)
    {
      if document == QueryDocument {
        queryText := queryText[..offset] + text + queryText[offset..];
        if text != [] {
          SetModified(document);
        }
      } else {
        datasetText := datasetText[..offset] + text + datasetText[offset..];
      }
    }

    /** Document.remove: only a non-empty removal from the query document
        reaches the document listener. */
    method Remove(document: DocumentKind, offset: nat, length: nat)
      modifies this
      requires offset + length <= |TextOf(document)|
      ensures TextOf(document) == old(TextOf(document))[..offset] + old(TextOf(document))[offset + length..]
      ensures document == QueryDocument ==> datasetText == old(datasetText)
      ensures document == DatasetDocument ==> queryText == old(queryText)
      ensures document == QueryDocument && length > 0 ==>
                modified && events == old(events) + EditorNotices(editorStateListeners, true, file)
      ensures document == DatasetDocument || length == 0 ==> modified == old(modified) && events == old(events)
      ensures file == old(file) && currentConnection == old(currentConnection)
      ensures connectionListeners == old(connectionListeners) && editorStateListeners == old(editorStateListeners)
    {
      if document == QueryDocument {
        queryText := queryText[..offset] + queryText[offset + length..];
        if length > 0 {
          SetModified(document);
        }
      } else {
        datasetText := datasetText[..offset] + datasetText[offset + length..];
      }
    }

    /** Stores the connection and tells every connection listener, in
        registration order. */
    method SetCurrentConnection(connection: Option<ConnectionRef>)
      modifies this
      ensures currentConnection == connection
      ensures events == old(events) + ConnectionNotices(connectionListeners, connection)
      ensures queryText == old(queryText) && datasetText == old(datasetText)
      ensures modified == old(modified) && file == old(file)
      ensures connectionListeners == old(connectionListeners) && editorStateListeners == old(editorStateListeners)
    {
      currentConnection := connection;
      FireConnectionChanged();
    }

    method AddConnectionListener(listener: ListenerId)
      modifies this
      ensures connectionListeners == old(connectionListeners) + [listener]
      ensures editorStateListeners == old(editorStateListeners) && events == old(events)
      ensures queryText == old(queryText) && datasetText == old(datasetText)
      ensures modified == old(modified) && file == old(file) && currentConnection == old(currentConnection)
    {
      connectionListeners := connectionListeners + [listener];
    }

    method RemoveConnectionListener(listener: ListenerId)
      modifies this
      ensures connectionListeners == RemoveFirst(old(connectionListeners), listener)
      ensures editorStateListeners == old(editorStateListeners) && events == old(events)
      ensures queryText == old(queryText) && datasetText == old(datasetText)
      ensures modified == old(modified) && file == old(file) && currentConnection == old(currentConnection)
    {
      connectionListeners := RemoveFirst(connectionListeners, listener);
    }

    method AddEditorStateListener(listener: ListenerId)
      modifies this
      ensures editorStateListeners == old(editorStateListeners) + [listener]
      ensures connectionListeners == old(connectionListeners) && events == old(events)
      ensures queryText == old(queryText) && datasetText == old(datasetText)
      ensures modified == old(modified) && file == old(file) && currentConnection == old(currentConnection)
    {
      editorStateListeners := editorStateListeners + [listener];
    }

    method RemoveEditorStateListener(listener: ListenerId)
      modifies this
      ensures editorStateListeners == RemoveFirst(old(editorStateListeners), listener)
      ensures connectionListeners == old(connectionListeners) && events == old(events)
      ensures queryText == old(queryText) && datasetText == old(datasetText)
      ensures modified == old(modified) && file == old(file) && currentConnection == old(currentConnection)
    {
      editorStateListeners := RemoveFirst(editorStateListeners, listener);
    }

    /** Clears the query text and forgets the file. Clearing a non-empty
        text goes through the document listener first, so the listeners
        briefly see the model modified. */
    method SetQueryStateNew()
      modifies this
      ensures queryText == [] && !modified && file == None && !HasFile()
      ensures events == old(events)
        + (if old(queryText) != [] then EditorNotices(editorStateListeners, true, old(file)) else [])
        + EditorNotices(editorStateListeners, false, None)
      ensures datasetText == old(datasetText) && currentConnection == old(currentConnection)
      ensures connectionListeners == old(connectionListeners) && editorStateListeners == old(editorStateListeners)
    {
      var length := |queryText|;
      if length > 0 {
        Remove(QueryDocument, 0, length);
      }
      modified := false;
      file := None;
      FireEditorStateChanged();
    }

    /** Records the file the query was saved to; the text is untouched. */
    method SetQueryStateSaved(savedFile: Option<FileRef>)
      modifies this
      ensures !modified && file == savedFile
      ensures HasFile() <==> savedFile.Some?
      ensures events == old(events) + EditorNotices(editorStateListeners, false, savedFile)
      ensures queryText == old(queryText) && datasetText == old(datasetText)
      ensures currentConnection == old(currentConnection)
      ensures connectionListeners == old(connectionListeners) && editorStateListeners == old(editorStateListeners)
    {
      modified := false;
      file := savedFile;
      FireEditorStateChanged();
    }

    /** Replaces the query text by a loaded one and records its file. The
        removal and the insertion each go through the document listener
        when they change something. */
    method SetQueryStateLoaded(loadedFile: Option<FileRef>, text: JString)
      modifies this
      ensures queryText == text && !modified && file == loadedFile
      ensures events == old(events)
        + (if old(queryText) != [] then EditorNotices(editorStateListeners, true, old(file)) else [])
        + (if text != [] then EditorNotices(editorStateListeners, true, old(file)) else [])
        + EditorNotices(editorStateListeners, false, loadedFile)
      ensures datasetText == old(datasetText) && currentConnection == old(currentConnection)
      ensures connectionListeners == old(connectionListeners) && editorStateListeners == old(editorStateListeners)
    {
      ghost var notices := EditorNotices(editorStateListeners, true, file);
      ghost var removed := events + (if queryText != [] then notices else []);
      var length := |queryText|;
      if length > 0 {
        Remove(QueryDocument, 0, length);
      }
      assert queryText == [] && events == removed;
      InsertString(QueryDocument, 0, text);
      assert queryText == text;
      assert events == removed + (if text != [] then notices else []);
      modified := false;
      file := loadedFile;
      FireEditorStateChanged();
    }
  }

  // ---------------------------------------------------------------------
  // Properties

  /** List.remove removes exactly one occurrence when there is one, and
      otherwise changes nothing. */
  lemma {:induction false} RemoveFirstSpec(listeners: seq<ListenerId>, listener: ListenerId)
    ensures listener !in listeners ==> RemoveFirst(listeners, listener) == listeners
    ensures multiset(RemoveFirst(listeners, listener)) == multiset(listeners) - multiset{listener}
  {
    if listeners != [] {
      RemoveFirstSpec(listeners[1..], listener);
      assert listeners == [listeners[0]] + listeners[1..];
    }
  }

  /** A listener registered once and then removed is not notified again. */
  lemma RemovedListenerNotNotified(listeners: seq<ListenerId>, listener: ListenerId, modified: bool, file: Option<FileRef>, connection: Option<ConnectionRef>)
    requires multiset(listeners)[listener] <= 1
    ensures !Reaches(EditorNotices(RemoveFirst(listeners, listener), modified, file), listener)
    ensures !Reaches(ConnectionNotices(RemoveFirst(listeners, listener), connection), listener)
  {
    RemoveFirstSpec(listeners, listener);
    var rest := RemoveFirst(listeners, listener);
    assert listener !in multiset(rest);
    assert listener !in rest;
  }

  /** A listener that is registered is notified, with the model's state. */
  lemma RegisteredListenerNotified(listeners: seq<ListenerId>, listener: ListenerId, modified: bool, file: Option<FileRef>)
    requires listener in listeners
    ensures EditorStateChanged(listener, modified, file) in EditorNotices(listeners, modified, file)
  {
    var k :| 0 <= k < |listeners| && listeners[k] == listener;
    assert EditorNotices(listeners, modified, file)[k] == EditorStateChanged(listener, modified, file);
  }

  /** With one editor listener: typing marks the model modified, saving
      clears the flag and attaches the file, and the listener sees both
      states in that order. */
  method EditThenSaveExample(listener: ListenerId, path: FileRef, text: JString)
    returns (modifiedAfterEdit: bool, modifiedAfterSave: bool, hasFile: bool, log: seq<ModelEvent>)
    requires text != []
    ensures modifiedAfterEdit && !modifiedAfterSave && hasFile
    ensures log == [EditorStateChanged(listener, true, None), EditorStateChanged(listener, false, Some(path))]
  {
    var m := new MainModel();
    m.AddEditorStateListener(listener);
    assert m.editorStateListeners == [listener];
    m.InsertString(QueryDocument, 0, text);
    assert EditorNotices([listener], true, None) == [EditorStateChanged(listener, true, None)];
    assert m.events == [EditorStateChanged(listener, true, None)];
    modifiedAfterEdit := m.modified;
    m.SetQueryStateSaved(Some(path));
    modifiedAfterSave := m.modified;
    hasFile := m.HasFile();
    assert EditorNotices([listener], false, Some(path)) == [EditorStateChanged(listener, false, Some(path))];
    log := m.events;
  }
}
