/** The row layouts of the contract's tables, with the primary and secondary key
    accessors the multi-index definitions use. */
module Rows {
  import opened Keys

  /** An account name; only its 64-bit encoding `value` matters to the contract. */
  datatype Name = Name(value: U64)

  /** A point in time, in microseconds since the epoch. */
  datatype TimePoint = TimePoint(elapsed: int)

  /** A document submitted but not yet approved (table "candidates"). */
  datatype CandidateDoc = CandidateDoc(
    id: U64,
    itemId: U64,
    factionId: U32,
    languageId: U32,
    categoryId: U64,
    author: Name,
    title: string,
    content: string)
  {
    function PrimaryKey(): U64 { id }

    /** Index "composite": the key decodes to this row's item, faction and language. */
    function ByCompositeKey(): (key: U128)
      ensures KeyItem(key) == itemId && KeyFaction(key) == factionId && KeyLanguage(key) == languageId
    {
      CompositeKeyDecodes(itemId, factionId, languageId);
      CompositeKey128(itemId, factionId, languageId)
    }
  }

  /** A document approved by an editor (table "published"). */
  datatype PublishedDoc = PublishedDoc(
    id: U64,
    itemId: U64,
    factionId: U32,
    languageId: U32,
    categoryId: U64,
    author: Name,
    title: string,
    content: string,
    approvedAt: TimePoint,
    approvedBy: Name)
  {
    function PrimaryKey(): U64 { id }

    /** Index "composite": the key decodes to this row's item, faction and language. */
    function ByCompositeKey(): (key: U128)
      ensures KeyItem(key) == itemId && KeyFaction(key) == factionId && KeyLanguage(key) == languageId
    {
      CompositeKeyDecodes(itemId, factionId, languageId);
      CompositeKey128(itemId, factionId, languageId)
    }

    /** Index "bycategory". */
    function ByCategory(): U64 { categoryId }
  }

  /** A grant to submit documents for a faction and language (table "authors"). */
  datatype AuthorRow = AuthorRow(id: U64, account: Name, factionId: U32, languageId: U32)
  {
    function PrimaryKey(): U64 { id }

    /** Index "composite": the key decodes to this row's account, faction and language. */
    function ByCompositeKey(): (key: U128)
      ensures KeyItem(key) == account.value && KeyFaction(key) == factionId && KeyLanguage(key) == languageId
    {
      CompositeKeyDecodes(account.value, factionId, languageId);
      CompositeKey128(account.value, factionId, languageId)
    }
  }

  /** A grant to publish for a faction (table "editors"). */
  datatype EditorRow = EditorRow(id: U64, account: Name, factionId: U32)
  {
    function PrimaryKey(): U64 { id }

    /** Index "editor". */
    function ByEditor(): U64 { account.value }
  }
}
