# dohdocs: a verified model of the document-moderation contract

The `dohdocs` EOSIO contract stores short documents (a title and a content) in two
stages. Authors submit candidates. Editors publish them, which moves a candidate into the
published table, and can unpublish them again. Two role tables say who may do what. The
contract account registers editors. Editors register authors.

This project models two things:

- the composite-key packer `composite_key_128` from `include/dohdocs.hpp`;
- the eight action bodies of `src/dohdocs.cpp`, acting on the four tables `candidates`,
  `published`, `authors` and `editors`.

## Layout

| file | module | what it holds |
|---|---|---|
| `wrappers.dfy` | `Wrappers` | `Option` and `Result` |
| `keys.dfy` | `Keys` | fixed-width integers; `composite_key_128` as written (shifts, wrap-around, bitwise OR); the narrowed 64-bit lookup key |
| `rows.dfy` | `Rows` | the row layouts and their primary and secondary key accessors |
| `multi_index.dfy` | `MultiIndex` | `emplace` and `erase` on a table modelled as `map<U64, Row>` |
| `workflow.dfy` | `Workflow` | one function per action, from the tables before to the tables after or the abort reason; the table invariant |
| `contract.dfy` | `Contract` | class `DohDocs` with the four tables as fields and one imperative method per action, each tied to its `Workflow` function |
| `properties.dfy` | `Properties` | lemmas relating several actions, the invariant over any sequence of transactions, and the moderation scenario |

## How the code behaves, as modelled

The model follows the `.cpp` bodies, not the header comments.

- **Lookups narrow the key.** Five lookups pass the 128-bit `composite_key_128(...)` to
  the primary-key `get`, which takes a `uint64_t`:
  - adddoc's author check;
  - the document lookups in deldoc, publish and unpublish;
  - delauthor's author lookup.

  C++ narrows the value to its low 64 bits. `Keys.LookupKey` is that narrowed value, and
  its contract proves it equals `faction_id * 2^32 + language_id`. The item or account
  part is lost.
- **Rows are stored by plain ids.** Candidates and published rows are stored under
  `doc_id`. Author and editor rows are stored under the account's value.
- **The lookups miss those rows.** They use a different key, so:
  - `deldoc` and `unpublish` reach the row they mean only when `doc_id` equals its own
    lookup key. See `AddDocThenDelDoc` and `DelDocMissesOtherIds` for deldoc, and
    `PublishThenUnpublish` and `UnpublishMissesOtherIds` for unpublish.
  - `delauthor(A, f, l)` erases the author row of whichever account has value
    f·2^32 + l. It removes A's own grant only when A's value is that number
    (`RegAuthorThenDelAuthor`). Otherwise it leaves A's row in place
    (`DelAuthorMissesOtherAccounts`), and on success it revokes another account's grant
    (`DelAuthorHitsStranger`).
  - adddoc's author check passes only if an account whose value is
    `faction_id * 2^32 + language_id` holds an author row (`AddDocAuthorCheck`).
  - In the usual scenario, the author's submission is refused. If it goes through,
    publish does not find it (`ModerationScenario`).
- **Roles ignore factions.** The editor check is `find(editor.value)`. Any editor row for
  the account passes, whatever faction it was registered for.
- **One role row per account.** regauthor and regeditor `emplace` under the account's
  value, so a second registration of the same account aborts on the primary key.
- **Only the author deletes.** `deldoc` accepts only the row's author, although the
  header comment says editors may delete too.
- **Publish is a move.** The published row is emplaced at src/dohdocs.cpp:46, and the
  candidate row is then erased at :58. Both steps assume the model's `erase`, which
  always succeeds. That `erase` is an abstraction; see "Storage engine internals" under
  "## Left out".
- **Aborts change nothing.** The chain rolls back every aborted transaction. In the
  model, each abort happens before the action's first write: the first write is the
  `emplace` or `erase`, and the model's `erase` cannot abort. So an aborted action
  leaves every table unchanged.

The header's comments on the actions promise behaviour the code does not have. In each
case the model follows the code:

| header comment | code |
|---|---|
| the editor must be registered for the faction (include/dohdocs.hpp:25, 34, 39) | role checks ignore factions |
| an author may be registered several times, for different factions and languages (include/dohdocs.hpp:33) | one author row per account |
| the editor may also delete a candidate (include/dohdocs.hpp:21) | only the author deletes |

## Model

| member | source | states |
|---|---|---|
| Keys.BitOr | include/dohdocs.hpp:59 | C++ bitwise OR on unsigned values, bit by bit: the lowest bit of the result is set exactly when either operand's is, and the result lies between the larger operand and the operands' sum. |
| Keys.ShiftLeft128 | include/dohdocs.hpp:59 | `<<` on `uint128_t` with wrap-around: it is the plain product x·2^k when that fits in 128 bits, and for k ≤ 128 its low k bits are clear. |
| Keys.CompositeKey128 | include/dohdocs.hpp:58-60 | The shift-and-OR expression, with 128-bit wrap-around written out, equals item·2^64 + faction·2^32 + language. |
| Keys.ShiftsFit | include/dohdocs.hpp:59 | Neither `<< 64` on a u64 nor `<< 32` on a u32 wraps in 128 bits: each shift is a plain multiplication. |
| Keys.BitOrDisjoint | include/dohdocs.hpp:59 | OR of a·2^k with b < 2^k is a·2^k + b: fields in disjoint bit ranges add. |
| Keys.OrIsSum | include/dohdocs.hpp:59 | The two ORs of the three shifted fields equal their sum. |
| Keys.CompositeKeyDecodes | include/dohdocs.hpp:59 | key / 2^64 gives back the item, (key / 2^32) % 2^32 the faction and key % 2^32 the language. |
| Keys.CompositeKeyInjective | include/dohdocs.hpp:58-60 | Equal keys come only from equal (item, faction, language) triples. |
| Keys.CompositeKeyOrder | include/dohdocs.hpp:59 | One key is smaller than another exactly when its triple is lexicographically smaller: item, then faction, then language. |
| Keys.LookupKey | src/dohdocs.cpp:9-10 | The 64-bit key a primary-key `get` receives for `composite_key_128(a, f, l)` is f·2^32 + l. |
| Keys.Narrow64 | src/dohdocs.cpp:10 | The implicit `uint128_t` to `uint64_t` conversion of the `get` argument (also at src/dohdocs.cpp:28, 43, 70, 100): the input is the result plus a multiple of 2^64, and a value below 2^64 is unchanged. |
| Keys.LookupKeyNarrowsCompositeKey | include/dohdocs.hpp:59 | The lookup key is exactly the header's shift-and-OR key, narrowed to its low 64 bits. |
| Keys.LookupKeyIgnoresItem | src/dohdocs.cpp:27-28 | Two lookups hit the same primary key exactly when faction and language agree, whatever item or account they name. |
| Keys.LookupKeyIsLowHalf | include/dohdocs.hpp:59 | The lookup key equals the composite key's faction field times 2^32 plus its language field. |
| Rows.CandidateDoc.PrimaryKey | include/dohdocs.hpp:74 | Returns `id`, as `primary_key()` does; `Workflow.Consistent` requires every candidate to sit under it. |
| Rows.CandidateDoc.ByCompositeKey | include/dohdocs.hpp:75 | A candidate's composite index key decodes to its item_id, faction_id and language_id. |
| Rows.PublishedDoc.PrimaryKey | include/dohdocs.hpp:90 | Returns `id`, as `primary_key()` does; `Workflow.Consistent` requires every published row to sit under it. |
| Rows.PublishedDoc.ByCompositeKey | include/dohdocs.hpp:91 | A published row's composite index key decodes to its item_id, faction_id and language_id. |
| Rows.PublishedDoc.ByCategory | include/dohdocs.hpp:92 | Returns `category_id`, the key of the "bycategory" index. |
| Rows.AuthorRow.PrimaryKey | include/dohdocs.hpp:109 | Returns `id`, as `primary_key()` does; `Workflow.Consistent` requires every author row to sit under it. |
| Rows.AuthorRow.ByCompositeKey | include/dohdocs.hpp:110 | An author row's composite index key decodes to its account value, faction_id and language_id. |
| Rows.EditorRow.PrimaryKey | include/dohdocs.hpp:118 | Returns `id`, as `primary_key()` does; `Workflow.Consistent` requires every editor row to sit under it. |
| Rows.EditorRow.ByEditor | include/dohdocs.hpp:119 | Returns `account.value`, the key of the "editor" index; `Workflow.Consistent` requires every editor row to sit under the primary key equal to it. |
| MultiIndex.Emplace | src/dohdocs.cpp:13-20 | `emplace` aborts exactly when the primary key is taken. Otherwise the table gains exactly that row, keeps every other row, and grows by one. |
| MultiIndex.Erase | src/dohdocs.cpp:31 | `erase` removes exactly that key, keeps every other row, and shrinks the table by one when the key was present. |
| MultiIndex.EraseUndoesEmplace | src/dohdocs.cpp:13-31 | Erasing a freshly emplaced row restores the table. |
| MultiIndex.EmplaceUndoesErase | src/dohdocs.cpp:13-31 | Emplacing an erased row back restores the table. |
| Workflow.AddDoc | src/dohdocs.cpp:5-21 | Aborts in this order: caller is not `author`; no author row under LookupKey(author, f, l); `doc_id` already a candidate. Otherwise only `candidates` changes: it gains one row under `doc_id` with the given faction, language, author, title and content. The invariant is kept. |
| Workflow.DelDoc | src/dohdocs.cpp:23-32 | Aborts in this order: caller is not `author`; no candidate under LookupKey(doc_id, f, l) ("Document not found"); that row's author is not `author`. Otherwise exactly that row is erased and nothing else changes. |
| Workflow.Publish | src/dohdocs.cpp:34-59 | Aborts in this order: caller is not `editor`; no editor row under `editor.value` (faction ignored); no candidate under the lookup key; `doc_id` already published. Otherwise the candidate is erased and published gains a row under `doc_id` copying author, title and content, with approved_by = editor and approved_at = now. Candidates shrink by one, published grows by one, authors and editors are unchanged. |
| Workflow.Unpublish | src/dohdocs.cpp:61-73 | Aborts on a wrong caller, a missing editor row, or no published row under the lookup key. Otherwise only that published row is erased. |
| Workflow.RegAuthor | src/dohdocs.cpp:75-89 | Aborts on a wrong caller, a missing editor row, or an author row already under `author.value`, whatever the faction or language. Otherwise only `authors` gains AuthorRow(author.value, author, f, l). |
| Workflow.DelAuthor | src/dohdocs.cpp:91-103 | Aborts on a wrong caller, a missing editor row, or no author row under LookupKey(author, f, l) ("Author not found"). Otherwise only that author row is erased. |
| Workflow.RegEditor | src/dohdocs.cpp:105-114 | Aborts unless the caller is the contract account, or when an editor row already exists under `editor.value`. Otherwise only `editors` gains EditorRow(editor.value, editor, f). |
| Workflow.DelEditor | src/dohdocs.cpp:116-124 | Aborts unless the caller is the contract account, or with "Editor not registered" when no row is under `editor.value`. Otherwise that row is erased, whatever faction is passed. |
| Contract.DohDocs.constructor | include/dohdocs.hpp:122-135 | A fresh deployment has all four tables empty and satisfies the invariant. |
| Contract.DohDocs.AddDoc | src/dohdocs.cpp:5-21 | The imperative action keeps the invariant. It reports and commits what Workflow.AddDoc says; on an abort the tables are unchanged. |
| Contract.DohDocs.DelDoc | src/dohdocs.cpp:23-32 | As Workflow.DelDoc, on the table fields. |
| Contract.DohDocs.Publish | src/dohdocs.cpp:34-59 | As Workflow.Publish, on the table fields, with `now` in place of the chain clock. |
| Contract.DohDocs.Unpublish | src/dohdocs.cpp:61-73 | As Workflow.Unpublish, on the table fields. |
| Contract.DohDocs.RegAuthor | src/dohdocs.cpp:75-89 | As Workflow.RegAuthor, on the table fields. |
| Contract.DohDocs.DelAuthor | src/dohdocs.cpp:91-103 | As Workflow.DelAuthor, on the table fields. |
| Contract.DohDocs.RegEditor | src/dohdocs.cpp:105-114 | As Workflow.RegEditor, on the table fields. |
| Contract.DohDocs.DelEditor | src/dohdocs.cpp:116-124 | As Workflow.DelEditor, on the table fields. |
| Contract.EditorLifecycle | src/dohdocs.cpp:105-124 | On a fresh contract, regeditor then deleditor (any faction) succeed, and a second deleditor aborts with "Editor not registered". |
| Properties.AddDocRejectsDuplicate | src/dohdocs.cpp:13-14 | After a successful adddoc, a second adddoc with the same doc_id aborts on the primary key. |
| Properties.AddDocThenDelDoc | src/dohdocs.cpp:14-31 | When doc_id equals its own lookup key, deldoc with adddoc's arguments restores the tables. |
| Properties.DelDocMissesOtherIds | src/dohdocs.cpp:14-31 | When doc_id is not its own lookup key, deldoc with adddoc's arguments never removes the row just added. |
| Properties.EditorCannotDeleteOthersDocument | src/dohdocs.cpp:29 | A registered editor who names themself as author cannot delete a candidate written by someone else. |
| Properties.PublishConsumesCandidate | src/dohdocs.cpp:42-58 | After publish, publishing again or deleting the candidate through the same lookup aborts with "Document not found". |
| Properties.PublishThenUnpublish | src/dohdocs.cpp:46-72 | When doc_id is its own lookup key, a registered editor's publish of a waiting, not yet published candidate succeeds. Unpublish then restores the published table, and the candidate stays gone. |
| Properties.UnpublishMissesOtherIds | src/dohdocs.cpp:46-72 | When doc_id is not its own lookup key, unpublish with publish's arguments never removes the row just published: on success that row is still there, unchanged. |
| Properties.RegEditorThenDelEditor | src/dohdocs.cpp:109-123 | For an unregistered account, deleditor after regeditor restores the tables, whatever factions the two calls name. |
| Properties.DelEditorTwice | src/dohdocs.cpp:119-123 | After a successful deleditor, a second deleditor for the same account aborts with "Editor not registered". |
| Properties.RegAuthorOncePerAccount | src/dohdocs.cpp:83-84 | After a successful regauthor, a second one for the same account by a registered editor aborts on the primary key, for any faction and language. |
| Properties.RegAuthorThenDelAuthor | src/dohdocs.cpp:83-102 | When the account's value equals f·2^32 + l, delauthor with regauthor's arguments restores the tables. |
| Properties.DelAuthorMissesOtherAccounts | src/dohdocs.cpp:99-102 | When the account's value is not f·2^32 + l, a successful delauthor leaves that account's author row in place, unchanged. |
| Properties.DelAuthorHitsStranger | src/dohdocs.cpp:99-102 | In a consistent state, with a registered editor, delauthor(A, f, l) succeeds whenever the account of value f·2^32 + l holds a grant. It revokes that grant, which belongs to an account other than A. |
| Properties.EditorRoleIgnoresFaction | src/dohdocs.cpp:38-39 | An editor row for another faction still passes the editor check of publish, unpublish, regauthor and delauthor. |
| Properties.RunPreservesConsistent | src/dohdocs.cpp:5-124 | Every sequence of transactions keeps the invariant: rows sit under their primary keys, and author and editor rows sit under their account's value. |
| Properties.AddDocAuthorCheck | src/dohdocs.cpp:9-10 | In a consistent state, adddoc passes its author check only if the account whose value is faction·2^32 + language holds an author row. |
| Properties.AddDocAuthorCheckReachable | src/dohdocs.cpp:9-10 | The same holds in every state reachable from deployment. |
| Properties.ModerationScenario | src/dohdocs.cpp:5-59 | On a fresh contract: the contract account registers editor E for faction 1, and E registers author A. A's submission of document 42 succeeds exactly when A's value is 2^32 + language. Even then E's publish aborts with "Document not found". |
| Properties.ScenarioSubmission | src/dohdocs.cpp:9-43 | The submission and publish steps of that scenario, from the tables left by the two registrations. |

## Left out

- Authentication: `require_auth(x)` is modelled as `caller == x`. Signatures, permission levels and the permission system belong to the chain.
- RAM payer: the payer argument of `emplace` is resource accounting and is omitted.
- Time: `current_time_point()` becomes the `now` parameter of `Publish`. It is the only action that reads the clock, so it is the only one that takes `now`.
- Categories: `setcategory` and `delcategory` are declared in the header but have no body in the code, and the category table is never used. Neither is modelled.
- Unassigned fields: the emplace lambdas never set `item_id` and `category_id`. Their values are an `Unassigned` parameter of the specification. The methods pick arbitrary values and return them as a ghost out-parameter. Nothing is claimed about them.
- Storage engine internals: iterators, secondary-index storage and table scopes are not modelled. Lookups are map membership, and `erase` removes the primary key of the row found. The model's `erase` always succeeds. In the code, deldoc, publish, unpublish and delauthor (src/dohdocs.cpp:28/31, 43/58, 70/72, 100/102) copy the row that `get` returns into a local variable with `auto`, then pass that copy to `erase(const T&)`. That overload treats the object as the library's internal item and checks that it belongs to this table. A copy is not such an item, so the check reads memory outside the object, which is undefined behaviour. With the usual library build the likely result is the abort "object passed to erase is not in multi_index", followed by rollback. So the successful deldoc, publish, unpublish and delauthor runs the model proves are runs the chain would most likely refuse. deleditor (src/dohdocs.cpp:120-123) erases through an iterator and is not affected.
- Header signatures: `adddoc` in the header takes `item_id` and `category_id`, while the code takes `doc_id`. The model follows the code. Header comments that the code contradicts are not modelled: editor deletion, and several author registrations per account.
- Names: an account name is only its 64-bit `value`. Its string encoding is not modelled.
- Strings: titles and contents are opaque `string`s. The code neither parses nor validates them.
- Error messages: an abort is a typed `Error`. The code's message texts appear as comments next to each constructor. The text of `require_auth`'s message is not modelled.
