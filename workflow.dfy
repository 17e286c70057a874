/** What each action of the contract does to the four tables, as a function from the
    tables before the call to either the tables after it or the reason it aborted.

    The functions follow the action bodies step by step: the authority check, the role
    check, the lookups, then the `emplace` and `erase` calls.  An aborted action
    commits nothing (the chain rolls the whole transaction back), so a `Failure`
    carries no tables.  Lookups that the code makes with `composite_key_128(…)` go
    through `LookupKey`, the 64-bit value the primary-key `get` receives. */
module Workflow {
  import opened Wrappers
  import opened Keys
  import opened Rows
  import opened MultiIndex

  /** The persistent state: the four tables the actions touch, keyed by primary key. */
  datatype Tables = Tables(
    candidates: map<U64, CandidateDoc>,
    published: map<U64, PublishedDoc>,
    authors: map<U64, AuthorRow>,
    editors: map<U64, EditorRow>)

  /** The tables of a freshly deployed contract. */
  const EMPTY: Tables := Tables(map[], map[], map[], map[])

  /** Why an action aborted. */
  datatype Error =
    | MissingAuthority(account: Name)  // require_auth(account) failed
    | AuthorNotRegistered              // "Author not registered for the specified faction and language"
    | DocumentNotFound                 // "Document not found"
    | NotDocumentAuthor                // "Only the author or editor can delete the document"
    | EditorNotRegistered              // "Editor not registered"
    | AuthorNotFound                   // "Author not found"
    | DuplicatePrimaryKey              // emplace: the primary key is already taken

  /** Whether an action committed, as reported to the caller. */
  datatype Status = Ok | Err(error: Error)

  /** The values the fields `item_id` and `category_id` end up with in a row whose
      emplace lambda never assigns them; the code does not determine them. */
  datatype Unassigned = Unassigned(itemId: U64, categoryId: U64)

  /** Every row is stored under its own primary key. */
  predicate KeyedById(t: Tables)
  {
    && (forall k :: k in t.candidates ==> t.candidates[k].PrimaryKey() == k)
    && (forall k :: k in t.published ==> t.published[k].PrimaryKey() == k)
    && (forall k :: k in t.authors ==> t.authors[k].PrimaryKey() == k)
    && (forall k :: k in t.editors ==> t.editors[k].PrimaryKey() == k)
  }

  /** Author and editor rows are stored under their account's value, as `regauthor`
      and `regeditor` store them; for editors the "editor" index key is the primary key. */
  predicate RolesKeyedByAccount(t: Tables)
  {
    && (forall k :: k in t.authors ==> t.authors[k].account.value == k)
    && (forall k :: k in t.editors ==> t.editors[k].ByEditor() == k)
  }

  /** The invariant every action preserves. */
  predicate Consistent(t: Tables)
  {
    KeyedById(t) && RolesKeyedByAccount(t)
  }

  /** What a caller sees of a result. */
  function StatusOf(r: Result<Tables, Error>): Status
  {
    if r.Success? then Ok else Err(r.error)
  }

  /** The status a call reports and the tables it leaves: the new tables on success, the
      old ones (rolled back) on an abort. */
  predicate Committed(before: Tables, r: Result<Tables, Error>, status: Status, after: Tables)
  {
    status == StatusOf(r) && after == (if r.Success? then r.value else before)
  }

  /** `adddoc`: the author submits a candidate stored under `docId`.  The author check
      looks up the row whose primary key is `LookupKey(author.value, …)`. */
  function AddDoc(t: Tables, caller: Name, docId: U64, factionId: U32, languageId: U32,
                  author: Name, title: string, content: string, unset: Unassigned): (r: Result<Tables, Error>)
    ensures r.Success? <==> caller == author && LookupKey(author.value, factionId, languageId) in t.authors
                            && docId !in t.candidates
    ensures caller != author ==> r == Failure(MissingAuthority(author))
    ensures caller == author && LookupKey(author.value, factionId, languageId) !in t.authors
            ==> r == Failure(AuthorNotRegistered)
    ensures caller == author && LookupKey(author.value, factionId, languageId) in t.authors && docId in t.candidates
            ==> r == Failure(DuplicatePrimaryKey)
    ensures r.Success? ==> r.value == t.(candidates := r.value.candidates)
                           && Inserted(t.candidates, r.value.candidates, docId)
                           && |r.value.candidates| == |t.candidates| + 1
    ensures r.Success? ==> var row := r.value.candidates[docId];
                           && row.id == docId && row.factionId == factionId && row.languageId == languageId
                           && row.author == author && row.title == title && row.content == content
    ensures r.Success? && Consistent(t) ==> Consistent(r.value)
  {
    if caller != author then Failure(MissingAuthority(author))
    else if LookupKey(author.value, factionId, languageId) !in t.authors then Failure(AuthorNotRegistered)
    else
      var row := CandidateDoc(docId, unset.itemId, factionId, languageId, unset.categoryId, author, title, content);
      match Emplace(t.candidates, docId, row)
      case None => Failure(DuplicatePrimaryKey)
      case Some(candidates) => Success(t.(candidates := candidates))
  }

  /** `deldoc`: the author removes the candidate found under
      `LookupKey(docId, factionId, languageId)`, if they wrote it. */
  function DelDoc(t: Tables, caller: Name, docId: U64, factionId: U32, languageId: U32, author: Name)
    : (r: Result<Tables, Error>)
    ensures var key := LookupKey(docId, factionId, languageId);
            r.Success? <==> caller == author && key in t.candidates && t.candidates[key].author == author
    ensures caller != author ==> r == Failure(MissingAuthority(author))
    ensures caller == author && LookupKey(docId, factionId, languageId) !in t.candidates
            ==> r == Failure(DocumentNotFound)
    ensures var key := LookupKey(docId, factionId, languageId);
            caller == author && key in t.candidates && t.candidates[key].author != author
            ==> r == Failure(NotDocumentAuthor)
    ensures r.Success? ==> r.value == t.(candidates := r.value.candidates)
                           && Removed(t.candidates, r.value.candidates, LookupKey(docId, factionId, languageId))
                           && |r.value.candidates| == |t.candidates| - 1
    ensures r.Success? && Consistent(t) ==> Consistent(r.value)
  {
    var key := LookupKey(docId, factionId, languageId);
    if caller != author then Failure(MissingAuthority(author))
    else if key !in t.candidates then Failure(DocumentNotFound)
    else if t.candidates[key].author != author then Failure(NotDocumentAuthor)
    else Success(t.(candidates := Erase(t.candidates, key)))
  }

  /** `publish`: a registered editor (a row under `editor.value`, any faction) moves the
      candidate found under the lookup key into the published table, under `docId`,
      stamped with the editor and the time. */
  function Publish(t: Tables, caller: Name, docId: U64, factionId: U32, languageId: U32,
                   editor: Name, now: TimePoint, unset: Unassigned): (r: Result<Tables, Error>)
    ensures r.Success? <==> caller == editor && editor.value in t.editors
                            && LookupKey(docId, factionId, languageId) in t.candidates && docId !in t.published
    ensures caller != editor ==> r == Failure(MissingAuthority(editor))
    ensures caller == editor && editor.value !in t.editors ==> r == Failure(EditorNotRegistered)
    ensures caller == editor && editor.value in t.editors && LookupKey(docId, factionId, languageId) !in t.candidates
            ==> r == Failure(DocumentNotFound)
    ensures caller == editor && editor.value in t.editors && LookupKey(docId, factionId, languageId) in t.candidates
            && docId in t.published
            ==> r == Failure(DuplicatePrimaryKey)
    ensures r.Success? ==> var key := LookupKey(docId, factionId, languageId);
                           && r.value.authors == t.authors && r.value.editors == t.editors
                           && Removed(t.candidates, r.value.candidates, key)
                           && Inserted(t.published, r.value.published, docId)
                           && |r.value.candidates| == |t.candidates| - 1
                           && |r.value.published| == |t.published| + 1
    ensures r.Success? ==> var candidate := t.candidates[LookupKey(docId, factionId, languageId)];
                           var row := r.value.published[docId];
                           && row.id == docId && row.factionId == factionId && row.languageId == languageId
                           && row.author == candidate.author && row.title == candidate.title
                           && row.content == candidate.content
                           && row.approvedAt == now && row.approvedBy == editor
    ensures r.Success? && Consistent(t) ==> Consistent(r.value)
  {
    var key := LookupKey(docId, factionId, languageId);
    if caller != editor then Failure(MissingAuthority(editor))
    else if editor.value !in t.editors then Failure(EditorNotRegistered)
    else if key !in t.candidates then Failure(DocumentNotFound)
    else
      var candidate := t.candidates[key];
      var row := PublishedDoc(docId, unset.itemId, factionId, languageId, unset.categoryId,
                              candidate.author, candidate.title, candidate.content, now, editor);
      match Emplace(t.published, docId, row)
      case None => Failure(DuplicatePrimaryKey)
      case Some(published) => Success(t.(published := published, candidates := Erase(t.candidates, key)))
  }

  /** `unpublish`: a registered editor removes the published row found under the
      lookup key. */
  function Unpublish(t: Tables, caller: Name, docId: U64, factionId: U32, languageId: U32, editor: Name)
    : (r: Result<Tables, Error>)
    ensures r.Success? <==> caller == editor && editor.value in t.editors
                            && LookupKey(docId, factionId, languageId) in t.published
    ensures caller != editor ==> r == Failure(MissingAuthority(editor))
    ensures caller == editor && editor.value !in t.editors ==> r == Failure(EditorNotRegistered)
    ensures caller == editor && editor.value in t.editors && LookupKey(docId, factionId, languageId) !in t.published
            ==> r == Failure(DocumentNotFound)
    ensures r.Success? ==> r.value == t.(published := r.value.published)
                           && Removed(t.published, r.value.published, LookupKey(docId, factionId, languageId))
                           && |r.value.published| == |t.published| - 1
    ensures r.Success? && Consistent(t) ==> Consistent(r.value)
  {
    var key := LookupKey(docId, factionId, languageId);
    if caller != editor then Failure(MissingAuthority(editor))
    else if editor.value !in t.editors then Failure(EditorNotRegistered)
    else if key !in t.published then Failure(DocumentNotFound)
    else Success(t.(published := Erase(t.published, key)))
  }

  /** `regauthor`: a registered editor grants `author` the right to submit for a faction
      and language; the row is stored under `author.value`, so an account holds at most
      one grant. */
  function RegAuthor(t: Tables, caller: Name, author: Name, factionId: U32, languageId: U32, editor: Name)
    : (r: Result<Tables, Error>)
    ensures r.Success? <==> caller == editor && editor.value in t.editors && author.value !in t.authors
    ensures caller != editor ==> r == Failure(MissingAuthority(editor))
    ensures caller == editor && editor.value !in t.editors ==> r == Failure(EditorNotRegistered)
    ensures caller == editor && editor.value in t.editors && author.value in t.authors
            ==> r == Failure(DuplicatePrimaryKey)
    ensures r.Success? ==> r.value == t.(authors := r.value.authors)
                           && Inserted(t.authors, r.value.authors, author.value)
                           && r.value.authors[author.value] == AuthorRow(author.value, author, factionId, languageId)
    ensures r.Success? && Consistent(t) ==> Consistent(r.value)
  {
    if caller != editor then Failure(MissingAuthority(editor))
    else if editor.value !in t.editors then Failure(EditorNotRegistered)
    else
      match Emplace(t.authors, author.value, AuthorRow(author.value, author, factionId, languageId))
      case None => Failure(DuplicatePrimaryKey)
      case Some(authors) => Success(t.(authors := authors))
  }

  /** `delauthor`: a registered editor removes the author row found under
      `LookupKey(author.value, …)`. */
  function DelAuthor(t: Tables, caller: Name, author: Name, factionId: U32, languageId: U32, editor: Name)
    : (r: Result<Tables, Error>)
    ensures r.Success? <==> caller == editor && editor.value in t.editors
                            && LookupKey(author.value, factionId, languageId) in t.authors
    ensures caller != editor ==> r == Failure(MissingAuthority(editor))
    ensures caller == editor && editor.value !in t.editors ==> r == Failure(EditorNotRegistered)
    ensures caller == editor && editor.value in t.editors && LookupKey(author.value, factionId, languageId) !in t.authors
            ==> r == Failure(AuthorNotFound)
    ensures r.Success? ==> r.value == t.(authors := r.value.authors)
                           && Removed(t.authors, r.value.authors, LookupKey(author.value, factionId, languageId))
    ensures r.Success? && Consistent(t) ==> Consistent(r.value)
  {
    var key := LookupKey(author.value, factionId, languageId);
    if caller != editor then Failure(MissingAuthority(editor))
    else if editor.value !in t.editors then Failure(EditorNotRegistered)
    else if key !in t.authors then Failure(AuthorNotFound)
    else Success(t.(authors := Erase(t.authors, key)))
  }

  /** `regeditor`: the contract account (`self`) grants `editor` the editor role; the row
      is stored under `editor.value`. */
  function RegEditor(t: Tables, self: Name, caller: Name, editor: Name, factionId: U32): (r: Result<Tables, Error>)
    ensures r.Success? <==> caller == self && editor.value !in t.editors
    ensures caller != self ==> r == Failure(MissingAuthority(self))
    ensures caller == self && editor.value in t.editors ==> r == Failure(DuplicatePrimaryKey)
    ensures r.Success? ==> r.value == t.(editors := r.value.editors)
                           && Inserted(t.editors, r.value.editors, editor.value)
                           && r.value.editors[editor.value] == EditorRow(editor.value, editor, factionId)
    ensures r.Success? && Consistent(t) ==> Consistent(r.value)
  {
    if caller != self then Failure(MissingAuthority(self))
    else
      match Emplace(t.editors, editor.value, EditorRow(editor.value, editor, factionId))
      case None => Failure(DuplicatePrimaryKey)
      case Some(editors) => Success(t.(editors := editors))
  }

  /** `deleditor`: the contract account removes the row under `editor.value`, whatever
      faction that row was registered for. */
  function DelEditor(t: Tables, self: Name, caller: Name, editor: Name, factionId: U32): (r: Result<Tables, Error>)
    ensures r.Success? <==> caller == self && editor.value in t.editors
    ensures caller != self ==> r == Failure(MissingAuthority(self))
    ensures caller == self && editor.value !in t.editors ==> r == Failure(EditorNotRegistered)
    ensures r.Success? ==> r.value == t.(editors := r.value.editors)
                           && Removed(t.editors, r.value.editors, editor.value)
    ensures r.Success? && Consistent(t) ==> Consistent(r.value)
  {
    if caller != self then Failure(MissingAuthority(self))
    else if editor.value !in t.editors then Failure(EditorNotRegistered)
    else Success(t.(editors := Erase(t.editors, editor.value)))
  }
}
