/** The contract's actions as methods on its four tables.

    Each method runs the action's steps in order (authority check, role check, lookup,
    `emplace`/`erase`) on the table fields.  On an abort it returns before any write,
    so the tables are exactly as they were, which is what the chain's rollback
    guarantees.  Every method is tied to its function in `Workflow`, whose contract
    states what the action does. */
module Contract {
  import opened Keys
  import opened Rows
  import opened MultiIndex
  import opened Workflow
  import opened Wrappers

  class DohDocs {
    /** The contract's own account, `get_self()`. */
    const self: Name

    var candidates: map<U64, CandidateDoc>
    var published: map<U64, PublishedDoc>
    var authors: map<U64, AuthorRow>
    var editors: map<U64, EditorRow>

    function Snapshot(): Tables
      reads this
    {
      Tables(candidates, published, authors, editors)
    }

    ghost predicate Valid()
      reads this
    {
      Consistent(Snapshot())
    }

    /** Deployment under `account`: all tables empty. */
    constructor (account: Name)
      ensures self == account && Snapshot() == EMPTY && Valid()
    {
      self := account;
      candidates, published, authors, editors := map[], map[], map[], map[];
    }

    method AddDoc(caller: Name, docId: U64, factionId: U32, languageId: U32,
                  author: Name, title: string, content: string)
      returns (status: Status, ghost unset: Unassigned)
      requires Valid()
      modifies this
      ensures Valid()
      ensures Committed(old(Snapshot()),
                        Workflow.AddDoc(old(Snapshot()), caller, docId, factionId, languageId, author, title, content, unset),
                        status, Snapshot())
    {
      var itemId: U64 := *;
      var categoryId: U64 := *;
      unset := Unassigned(itemId, categoryId);
      if caller != author {
        status := Err(MissingAuthority(author));
        return;
      }
      var authorKey := LookupKey(author.value, factionId, languageId);
      if authorKey !in authors {
        status := Err(AuthorNotRegistered);
        return;
      }
      var row := CandidateDoc(docId, itemId, factionId, languageId, categoryId, author, title, content);
      var emplaced := Emplace(candidates, docId, row);
      if emplaced.None? {
        status := Err(DuplicatePrimaryKey);
        return;
      }
      ghost var before := Snapshot();
      assert Workflow.AddDoc(before, caller, docId, factionId, languageId, author, title, content, unset)
          == Success(before.(candidates := emplaced.value));
      candidates := emplaced.value;
      status := Ok;
    }

    method DelDoc(caller: Name, docId: U64, factionId: U32, languageId: U32, author: Name)
      returns (status: Status)
      requires Valid()
      modifies this
      ensures Valid()
      ensures Committed(old(Snapshot()), Workflow.DelDoc(old(Snapshot()), caller, docId, factionId, languageId, author),
                        status, Snapshot())
    {
      if caller != author {
        return Err(MissingAuthority(author));
      }
      var docKey := LookupKey(docId, factionId, languageId);
      if docKey !in candidates {
        return Err(DocumentNotFound);
      }
      var doc := candidates[docKey];
      if doc.author != author {
        return Err(NotDocumentAuthor);
      }
      ghost var before := Snapshot();
      assert Workflow.DelDoc(before, caller, docId, factionId, languageId, author)
          == Success(before.(candidates := Erase(candidates, docKey)));
      candidates := Erase(candidates, docKey);
      status := Ok;
    }

    method Publish(caller: Name, docId: U64, factionId: U32, languageId: U32, editor: Name, now: TimePoint)
      returns (status: Status, ghost unset: Unassigned)
      requires Valid()
      modifies this
      ensures Valid()
      ensures Committed(old(Snapshot()),
                        Workflow.Publish(old(Snapshot()), caller, docId, factionId, languageId, editor, now, unset),
                        status, Snapshot())
    {
      var itemId: U64 := *;
      var categoryId: U64 := *;
      unset := Unassigned(itemId, categoryId);
      if caller != editor {
        status := Err(MissingAuthority(editor));
        return;
      }
      if editor.value !in editors {
        status := Err(EditorNotRegistered);
        return;
      }
      var candidateKey := LookupKey(docId, factionId, languageId);
      if candidateKey !in candidates {
        status := Err(DocumentNotFound);
        return;
      }
      var candidate := candidates[candidateKey];
      var row := PublishedDoc(docId, itemId, factionId, languageId, categoryId,
                              candidate.author, candidate.title, candidate.content, now, editor);
      var emplaced := Emplace(published, docId, row);
      if emplaced.None? {
        status := Err(DuplicatePrimaryKey);
        return;
      }
      ghost var before := Snapshot();
      assert Workflow.Publish(before, caller, docId, factionId, languageId, editor, now, unset)
          == Success(before.(published := emplaced.value, candidates := Erase(candidates, candidateKey)));
      published := emplaced.value;
      candidates := Erase(candidates, candidateKey);
      status := Ok;
    }

    method Unpublish(caller: Name, docId: U64, factionId: U32, languageId: U32, editor: Name)
      returns (status: Status)
      requires Valid()
      modifies this
      ensures Valid()
      ensures Committed(old(Snapshot()), Workflow.Unpublish(old(Snapshot()), caller, docId, factionId, languageId, editor),
                        status, Snapshot())
    {
      if caller != editor {
        return Err(MissingAuthority(editor));
      }
      if editor.value !in editors {
        return Err(EditorNotRegistered);
      }
      var pubKey := LookupKey(docId, factionId, languageId);
      if pubKey !in published {
        return Err(DocumentNotFound);
      }
      ghost var before := Snapshot();
      assert Workflow.Unpublish(before, caller, docId, factionId, languageId, editor)
          == Success(before.(published := Erase(published, pubKey)));
      published := Erase(published, pubKey);
      status := Ok;
    }

    method RegAuthor(caller: Name, author: Name, factionId: U32, languageId: U32, editor: Name)
      returns (status: Status)
      requires Valid()
      modifies this
      ensures Valid()
      ensures Committed(old(Snapshot()), Workflow.RegAuthor(old(Snapshot()), caller, author, factionId, languageId, editor),
                        status, Snapshot())
    {
      if caller != editor {
        return Err(MissingAuthority(editor));
      }
      if editor.value !in editors {
        return Err(EditorNotRegistered);
      }
      var emplaced := Emplace(authors, author.value, AuthorRow(author.value, author, factionId, languageId));
      if emplaced.None? {
        return Err(DuplicatePrimaryKey);
      }
      ghost var before := Snapshot();
      assert Workflow.RegAuthor(before, caller, author, factionId, languageId, editor)
          == Success(before.(authors := emplaced.value));
      authors := emplaced.value;
      status := Ok;
    }

    method DelAuthor(caller: Name, author: Name, factionId: U32, languageId: U32, editor: Name)
      returns (status: Status)
      requires Valid()
      modifies this
      ensures Valid()
      ensures Committed(old(Snapshot()), Workflow.DelAuthor(old(Snapshot()), caller, author, factionId, languageId, editor),
                        status, Snapshot())
    {
      if caller != editor {
        return Err(MissingAuthority(editor));
      }
      if editor.value !in editors {
        return Err(EditorNotRegistered);
      }
      var authorKey := LookupKey(author.value, factionId, languageId);
      if authorKey !in authors {
        return Err(AuthorNotFound);
      }
      ghost var before := Snapshot();
      assert Workflow.DelAuthor(before, caller, author, factionId, languageId, editor)
          == Success(before.(authors := Erase(authors, authorKey)));
      authors := Erase(authors, authorKey);
      status := Ok;
    }

    method RegEditor(caller: Name, editor: Name, factionId: U32) returns (status: Status)
      requires Valid()
      modifies this
      ensures Valid()
      ensures Committed(old(Snapshot()), Workflow.RegEditor(old(Snapshot()), self, caller, editor, factionId),
                        status, Snapshot())
    {
      if caller != self {
        return Err(MissingAuthority(self));
      }
      var emplaced := Emplace(editors, editor.value, EditorRow(editor.value, editor, factionId));
      if emplaced.None? {
        return Err(DuplicatePrimaryKey);
      }
      ghost var before := Snapshot();
      assert Workflow.RegEditor(before, self, caller, editor, factionId)
          == Success(before.(editors := emplaced.value));
      editors := emplaced.value;
      status := Ok;
    }

    method DelEditor(caller: Name, editor: Name, factionId: U32) returns (status: Status)
      requires Valid()
      modifies this
      ensures Valid()
      ensures Committed(old(Snapshot()), Workflow.DelEditor(old(Snapshot()), self, caller, editor, factionId),
                        status, Snapshot())
    {
      if caller != self {
        return Err(MissingAuthority(self));
      }
      if editor.value !in editors {
        return Err(EditorNotRegistered);
      }
      ghost var before := Snapshot();
      assert Workflow.DelEditor(before, self, caller, editor, factionId)
          == Success(before.(editors := Erase(editors, editor.value)));
      editors := Erase(editors, editor.value);
      status := Ok;
    }
  }

  /** A client of the class: on a fresh deployment, registering an editor, deleting it
      (naming any faction) and deleting it again makes the second deletion abort. */
  method EditorLifecycle(account: Name, editor: Name, factionId: U32, otherFaction: U32)
    returns (registered: Status, deleted: Status, deletedAgain: Status)
    ensures registered == Ok && deleted == Ok && deletedAgain == Err(EditorNotRegistered)
  {
    var contract := new DohDocs(account);
    registered := contract.RegEditor(account, editor, factionId);
    deleted := contract.DelEditor(account, editor, otherFaction);
    deletedAgain := contract.DelEditor(account, editor, factionId);
  }
}
