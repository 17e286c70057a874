/** Properties that relate several actions: what one action leaves for the next, the
    round trips the actions complete (or, because lookups use the narrowed key, fail to
    complete), and the invariant every sequence of actions keeps. */
module Properties {
  import opened Wrappers
  import opened Keys
  import opened Rows
  import opened MultiIndex
  import opened Workflow

  /** A second `adddoc` under the same document id aborts on the primary key. */
  lemma AddDocRejectsDuplicate(t: Tables, docId: U64, factionId: U32, languageId: U32, author: Name,
                               title: string, content: string, unset: Unassigned,
                               title2: string, content2: string, unset2: Unassigned)
    requires AddDoc(t, author, docId, factionId, languageId, author, title, content, unset).Success?
    ensures var after := AddDoc(t, author, docId, factionId, languageId, author, title, content, unset).value;
            AddDoc(after, author, docId, factionId, languageId, author, title2, content2, unset2)
            == Failure(DuplicatePrimaryKey)
  {
  }

  /** `deldoc` undoes `adddoc` when the document id is the narrowed lookup key of its
      own triple, that is when docId == factionId * 2^32 + languageId. */
  lemma AddDocThenDelDoc(t: Tables, docId: U64, factionId: U32, languageId: U32, author: Name,
                         title: string, content: string, unset: Unassigned)
    requires docId == factionId * TWO_32 + languageId
    requires AddDoc(t, author, docId, factionId, languageId, author, title, content, unset).Success?
    ensures var after := AddDoc(t, author, docId, factionId, languageId, author, title, content, unset).value;
            DelDoc(after, author, docId, factionId, languageId, author) == Success(t)
  {
    var after := AddDoc(t, author, docId, factionId, languageId, author, title, content, unset).value;
    var removed := DelDoc(after, author, docId, factionId, languageId, author).value;
    assert removed.candidates == t.candidates;
  }

  /** Otherwise `deldoc` with the same arguments never removes the document just added:
      it aborts, or erases some other row. */
  lemma DelDocMissesOtherIds(t: Tables, docId: U64, factionId: U32, languageId: U32, author: Name,
                             title: string, content: string, unset: Unassigned)
    requires docId != factionId * TWO_32 + languageId
    requires AddDoc(t, author, docId, factionId, languageId, author, title, content, unset).Success?
    ensures var after := AddDoc(t, author, docId, factionId, languageId, author, title, content, unset).value;
            var r := DelDoc(after, author, docId, factionId, languageId, author);
            r.Success? ==> docId in r.value.candidates && r.value.candidates[docId] == after.candidates[docId]
  {
  }

  /** Only the document's author can delete it: an editor (of any faction) who names
      themself as `author` is refused on the row's author field. */
  lemma EditorCannotDeleteOthersDocument(t: Tables, docId: U64, factionId: U32, languageId: U32, editor: Name)
    requires editor.value in t.editors
    requires LookupKey(docId, factionId, languageId) in t.candidates
    requires t.candidates[LookupKey(docId, factionId, languageId)].author != editor
    ensures DelDoc(t, editor, docId, factionId, languageId, editor) == Failure(NotDocumentAuthor)
  {
  }

  /** `publish` is a move: afterwards the candidate is gone, so publishing or deleting it
      again through the same lookup aborts with "Document not found". */
  lemma PublishConsumesCandidate(t: Tables, docId: U64, factionId: U32, languageId: U32, editor: Name,
                                 now: TimePoint, unset: Unassigned, now2: TimePoint, unset2: Unassigned, author: Name)
    requires Publish(t, editor, docId, factionId, languageId, editor, now, unset).Success?
    ensures var after := Publish(t, editor, docId, factionId, languageId, editor, now, unset).value;
            && Publish(after, editor, docId, factionId, languageId, editor, now2, unset2) == Failure(DocumentNotFound)
            && DelDoc(after, author, docId, factionId, languageId, author) == Failure(DocumentNotFound)
  {
  }

  /** When docId is its own lookup key, a registered editor publishes a waiting candidate
      not yet published, and `unpublish` then removes the published row again; the
      candidate does not come back. */
  lemma PublishThenUnpublish(t: Tables, docId: U64, factionId: U32, languageId: U32, editor: Name,
                             now: TimePoint, unset: Unassigned)
    requires docId == factionId * TWO_32 + languageId
    requires editor.value in t.editors && docId in t.candidates && docId !in t.published
    ensures Publish(t, editor, docId, factionId, languageId, editor, now, unset).Success?
    ensures var after := Publish(t, editor, docId, factionId, languageId, editor, now, unset).value;
            Unpublish(after, editor, docId, factionId, languageId, editor)
            == Success(t.(candidates := Erase(t.candidates, docId)))
  {
    assert LookupKey(docId, factionId, languageId) == docId;
    var after := Publish(t, editor, docId, factionId, languageId, editor, now, unset).value;
    var back := Unpublish(after, editor, docId, factionId, languageId, editor).value;
    assert back.published == t.published;
    assert back.candidates == Erase(t.candidates, docId);
  }

  /** Otherwise `unpublish` with publish's arguments never removes the row just
      published: it aborts, or erases some other row. */
  lemma UnpublishMissesOtherIds(t: Tables, docId: U64, factionId: U32, languageId: U32, editor: Name,
                                now: TimePoint, unset: Unassigned)
    requires docId != factionId * TWO_32 + languageId
    requires Publish(t, editor, docId, factionId, languageId, editor, now, unset).Success?
    ensures var after := Publish(t, editor, docId, factionId, languageId, editor, now, unset).value;
            var r := Unpublish(after, editor, docId, factionId, languageId, editor);
            r.Success? ==> docId in r.value.published && r.value.published[docId] == after.published[docId]
  {
  }

  /** `deleditor` undoes `regeditor`, whatever faction either of them names. */
  lemma RegEditorThenDelEditor(t: Tables, self: Name, editor: Name, factionId: U32, otherFaction: U32)
    requires editor.value !in t.editors
    ensures RegEditor(t, self, self, editor, factionId).Success?
    ensures DelEditor(RegEditor(t, self, self, editor, factionId).value, self, self, editor, otherFaction) == Success(t)
  {
    var after := RegEditor(t, self, self, editor, factionId).value;
    var back := DelEditor(after, self, self, editor, otherFaction).value;
    assert back.editors == t.editors;
  }

  /** A second `deleditor` of the same account aborts: no row is left behind. */
  lemma DelEditorTwice(t: Tables, self: Name, editor: Name, factionId: U32, otherFaction: U32)
    requires DelEditor(t, self, self, editor, factionId).Success?
    ensures DelEditor(DelEditor(t, self, self, editor, factionId).value, self, self, editor, otherFaction)
            == Failure(EditorNotRegistered)
  {
  }

  /** An account can be registered as author only once: a second `regauthor` for it, by
      a registered editor and for any faction and language, hits the primary key. */
  lemma RegAuthorOncePerAccount(t: Tables, author: Name, factionId: U32, languageId: U32, editor: Name,
                                factionId2: U32, languageId2: U32, editor2: Name)
    requires RegAuthor(t, editor, author, factionId, languageId, editor).Success?
    requires editor2.value in t.editors
    ensures var after := RegAuthor(t, editor, author, factionId, languageId, editor).value;
            RegAuthor(after, editor2, author, factionId2, languageId2, editor2) == Failure(DuplicatePrimaryKey)
  {
  }

  /** `delauthor` undoes `regauthor` when the account's value is the narrowed lookup
      key of its own triple, that is when author.value == factionId * 2^32 + languageId. */
  lemma RegAuthorThenDelAuthor(t: Tables, author: Name, factionId: U32, languageId: U32, editor: Name)
    requires author.value == factionId * TWO_32 + languageId
    requires RegAuthor(t, editor, author, factionId, languageId, editor).Success?
    ensures var after := RegAuthor(t, editor, author, factionId, languageId, editor).value;
            DelAuthor(after, editor, author, factionId, languageId, editor) == Success(t)
  {
    var after := RegAuthor(t, editor, author, factionId, languageId, editor).value;
    var back := DelAuthor(after, editor, author, factionId, languageId, editor).value;
    assert back.authors == t.authors;
  }

  /** Otherwise `delauthor` never revokes the named account's own grant: whenever it
      succeeds, the account's author row is still there, unchanged. */
  lemma DelAuthorMissesOtherAccounts(t: Tables, author: Name, factionId: U32, languageId: U32, editor: Name)
    requires author.value != factionId * TWO_32 + languageId
    requires author.value in t.authors
    ensures var r := DelAuthor(t, editor, author, factionId, languageId, editor);
            r.Success? ==> author.value in r.value.authors && r.value.authors[author.value] == t.authors[author.value]
  {
  }

  /** What `delauthor` does revoke, in a consistent state: the grant of the account whose
      value is the lookup key factionId * 2^32 + languageId, which is another account
      than `author` unless author.value is that number. */
  lemma DelAuthorHitsStranger(t: Tables, author: Name, factionId: U32, languageId: U32, editor: Name)
    requires Consistent(t)
    requires editor.value in t.editors
    requires author.value != LookupKey(author.value, factionId, languageId)
    requires LookupKey(author.value, factionId, languageId) in t.authors
    ensures var r := DelAuthor(t, editor, author, factionId, languageId, editor);
            var key := LookupKey(author.value, factionId, languageId);
            && r.Success?
            && t.authors[key].account != author
            && t.authors[key].account.value == key
            && key !in r.value.authors
  {
    assert RolesKeyedByAccount(t);
  }

  /** The editor check looks only at the account: an editor row registered for one
      faction lets the account act for every faction. */
  lemma EditorRoleIgnoresFaction(t: Tables, editor: Name, docId: U64, factionId: U32, languageId: U32,
                                 author: Name, now: TimePoint, unset: Unassigned)
    requires editor.value in t.editors && t.editors[editor.value].factionId != factionId
    ensures Publish(t, editor, docId, factionId, languageId, editor, now, unset) != Failure(EditorNotRegistered)
    ensures Unpublish(t, editor, docId, factionId, languageId, editor) != Failure(EditorNotRegistered)
    ensures RegAuthor(t, editor, author, factionId, languageId, editor) != Failure(EditorNotRegistered)
    ensures DelAuthor(t, editor, author, factionId, languageId, editor) != Failure(EditorNotRegistered)
  {
  }

  /** One call of any action. */
  datatype Action =
    | AddDocCall(caller: Name, docId: U64, factionId: U32, languageId: U32, author: Name,
                 title: string, content: string, unset: Unassigned)
    | DelDocCall(caller: Name, docId: U64, factionId: U32, languageId: U32, author: Name)
    | PublishCall(caller: Name, docId: U64, factionId: U32, languageId: U32, editor: Name,
                  now: TimePoint, unset: Unassigned)
    | UnpublishCall(caller: Name, docId: U64, factionId: U32, languageId: U32, editor: Name)
    | RegAuthorCall(caller: Name, author: Name, factionId: U32, languageId: U32, editor: Name)
    | DelAuthorCall(caller: Name, author: Name, factionId: U32, languageId: U32, editor: Name)
    | RegEditorCall(caller: Name, editor: Name, factionId: U32)
    | DelEditorCall(caller: Name, editor: Name, factionId: U32)

  function Apply(t: Tables, self: Name, action: Action): Result<Tables, Error>
  {
    match action
    case AddDocCall(c, d, f, l, a, title, content, u) => AddDoc(t, c, d, f, l, a, title, content, u)
    case DelDocCall(c, d, f, l, a) => DelDoc(t, c, d, f, l, a)
    case PublishCall(c, d, f, l, e, now, u) => Publish(t, c, d, f, l, e, now, u)
    case UnpublishCall(c, d, f, l, e) => Unpublish(t, c, d, f, l, e)
    case RegAuthorCall(c, a, f, l, e) => RegAuthor(t, c, a, f, l, e)
    case DelAuthorCall(c, a, f, l, e) => DelAuthor(t, c, a, f, l, e)
    case RegEditorCall(c, e, f) => RegEditor(t, self, c, e, f)
    case DelEditorCall(c, e, f) => DelEditor(t, self, c, e, f)
  }

  /** The tables after a sequence of transactions; one that aborts leaves them as they were. */
  function Run(t: Tables, self: Name, actions: seq<Action>): Tables
    decreases |actions|
  {
    if actions == [] then t
    else
      var r := Apply(t, self, actions[0]);
      Run(if r.Success? then r.value else t, self, actions[1..])
  }

  /** Every sequence of transactions keeps the tables consistent. */
  lemma {:induction false} RunPreservesConsistent(t: Tables, self: Name, actions: seq<Action>)
    requires Consistent(t)
    ensures Consistent(Run(t, self, actions))
    decreases |actions|
  {
    if actions != [] {
      var r := Apply(t, self, actions[0]);
      RunPreservesConsistent(if r.Success? then r.value else t, self, actions[1..]);
    }
  }

  /** In a consistent state `adddoc`'s author check passes only if an account whose
      64-bit value is factionId * 2^32 + languageId holds an author row: the submitting
      author's own registration is not what is consulted. */
  lemma AddDocAuthorCheck(t: Tables, caller: Name, docId: U64, factionId: U32, languageId: U32, author: Name,
                          title: string, content: string, unset: Unassigned)
    requires Consistent(t)
    ensures AddDoc(t, caller, docId, factionId, languageId, author, title, content, unset) != Failure(AuthorNotRegistered)
            ==> caller != author || (var key := factionId * TWO_32 + languageId;
                                     key in t.authors && t.authors[key].account.value == key)
  {
    var r := AddDoc(t, caller, docId, factionId, languageId, author, title, content, unset);
    var key := LookupKey(author.value, factionId, languageId);
    assert caller == author && r != Failure(AuthorNotRegistered) ==> key in t.authors;
    assert key in t.authors ==> t.authors[key].account.value == key;
  }

  /** The same, for every state the contract can reach from deployment. */
  lemma AddDocAuthorCheckReachable(self: Name, actions: seq<Action>, caller: Name, docId: U64,
                                   factionId: U32, languageId: U32, author: Name,
                                   title: string, content: string, unset: Unassigned)
    ensures var t := Run(EMPTY, self, actions);
            AddDoc(t, caller, docId, factionId, languageId, author, title, content, unset) != Failure(AuthorNotRegistered)
            ==> caller != author || (var key := factionId * TWO_32 + languageId;
                                     key in t.authors && t.authors[key].account.value == key)
  {
    RunPreservesConsistent(EMPTY, self, actions);
    AddDocAuthorCheck(Run(EMPTY, self, actions), caller, docId, factionId, languageId, author, title, content, unset);
  }

  /** The moderation scenario on a fresh deployment: the contract account registers
      editor E for faction 1, E registers author A for (1, languageId), A submits
      document 42.  The submission succeeds only when A's value is 2^32 + languageId;
      and even then E cannot publish it, because publish looks the candidate up under
      2^32 + languageId while it is stored under 42. */
  lemma ModerationScenario(self: Name, editor: Name, author: Name, languageId: U32,
                           title: string, content: string, unset: Unassigned,
                           now: TimePoint, unset2: Unassigned)
    ensures RegEditor(EMPTY, self, self, editor, 1).Success?
    ensures var t1 := RegEditor(EMPTY, self, self, editor, 1).value;
            RegAuthor(t1, editor, author, 1, languageId, editor).Success?
    ensures var t1 := RegEditor(EMPTY, self, self, editor, 1).value;
            var t2 := RegAuthor(t1, editor, author, 1, languageId, editor).value;
            var r3 := AddDoc(t2, author, 42, 1, languageId, author, title, content, unset);
            && (r3.Success? <==> author.value == TWO_32 + languageId)
            && (r3.Failure? ==> r3.error == AuthorNotRegistered)
            && (r3.Success? ==> Publish(r3.value, editor, 42, 1, languageId, editor, now, unset2)
                                == Failure(DocumentNotFound))
  {
    var t1 := EMPTY.(editors := map[editor.value := EditorRow(editor.value, editor, 1)]);
    assert RegEditor(EMPTY, self, self, editor, 1) == Success(t1);
    var t2 := t1.(authors := map[author.value := AuthorRow(author.value, author, 1, languageId)]);
    assert RegAuthor(t1, editor, author, 1, languageId, editor) == Success(t2);
    ScenarioSubmission(t2, editor, author, languageId, title, content, unset, now, unset2);
  }

  lemma ScenarioSubmission(t2: Tables, editor: Name, author: Name, languageId: U32,
                           title: string, content: string, unset: Unassigned,
                           now: TimePoint, unset2: Unassigned)
    requires t2.candidates == map[] && t2.authors.Keys == {author.value} && editor.value in t2.editors
    ensures var r3 := AddDoc(t2, author, 42, 1, languageId, author, title, content, unset);
            && (r3.Success? <==> author.value == TWO_32 + languageId)
            && (r3.Failure? ==> r3.error == AuthorNotRegistered)
            && (r3.Success? ==> Publish(r3.value, editor, 42, 1, languageId, editor, now, unset2)
                                == Failure(DocumentNotFound))
  {
    var key := LookupKey(author.value, 1, languageId);
    assert key == TWO_32 + languageId;
    var r3 := AddDoc(t2, author, 42, 1, languageId, author, title, content, unset);
    if author.value == key {
      var row := CandidateDoc(42, unset.itemId, 1, languageId, unset.categoryId, author, title, content);
      assert r3 == Success(t2.(candidates := map[42 := row]));
      assert LookupKey(42, 1, languageId) != 42;
    } else {
      assert key !in t2.authors;
    }
  }
}
