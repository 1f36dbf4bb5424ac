/**
 * The Note entity: a mutable bean with five fields (Lombok getters and
 * setters), equality by id only, createdDate stamped when the object is
 * constructed, and bean-validation constraints on title and text.
 */
module Entity {
  import opened Wrappers
  import opened Chars

  /** A value of the NoteTag enumeration, identified by its ordinal. */
  datatype NoteTag = NoteTag(ordinal: nat)

  /**
   * The five fields of a Note as one value: what the store keeps as a
   * document and what the mapper reads. A Java null is None. createdDate is
   * an Instant, represented as an integer time stamp.
   */
  datatype NoteDoc = NoteDoc(
    id: Option<string>,
    title: Option<string>,
    text: Option<string>,
    createdDate: int,
    tags: Option<set<NoteTag>>)

  const TitleMaxLength := 255
  const TextMaxLength := 10000

  /** @NotBlank: present, and something is left once trimmed. */
  predicate NotBlank(s: Option<string>)
  {
    s.Some? && Trim(s.value) != []
  }

  /** @Size(max = n), which accepts null. */
  predicate SizeAtMost(s: Option<string>, n: nat)
  {
    s.None? || |s.value| <= n
  }

  /** The constraints Note declares on its fields. */
  predicate ValidNote(d: NoteDoc)
  {
    && NotBlank(d.title) && SizeAtMost(d.title, TitleMaxLength)
    && NotBlank(d.text) && SizeAtMost(d.text, TextMaxLength)
  }

  /** The document's creation time, the key the listing sorts by. */
  function CreatedDate(d: NoteDoc): int
  {
    d.createdDate
  }

  class Note {
    var id: Option<string>
    var title: Option<string>
    var text: Option<string>
    var createdDate: int
    var tags: Option<set<NoteTag>>

    /** The no-argument constructor: every field null except createdDate, stamped with the current time. */
    constructor (now: int)
      ensures Fields() == NoteDoc(None, None, None, now, None)
    {
      id, title, text, createdDate, tags := None, None, None, now, None;
    }

    /** The all-arguments constructor. */
    constructor AllArgs(id: Option<string>, title: Option<string>, text: Option<string>,
                        createdDate: int, tags: Option<set<NoteTag>>)
      ensures Fields() == NoteDoc(id, title, text, createdDate, tags)
    {
      this.id, this.title, this.text := id, title, text;
      this.createdDate, this.tags := createdDate, tags;
    }

    function Fields(): NoteDoc
      reads this
    {
      NoteDoc(id, title, text, createdDate, tags)
    }

    /** The constraints of the entity hold for the object's current fields. */
    ghost predicate Valid()
      reads this
    {
      ValidNote(Fields())
    }

    /** Lombok equals with only id included: the same object, or equal ids (two null ids are equal). */
    function Equals(other: Note): (r: bool)
      reads this, other
      ensures r <==> id == other.id
    {
      this == other || id == other.id
    }
  }

  /** Equality of notes ignores every field but id: a reflexive, symmetric and transitive relation. */
  lemma EqualsIsEquivalence(a: Note, b: Note, c: Note)
    ensures a.Equals(a)
    ensures a.Equals(b) == b.Equals(a)
    ensures a.Equals(b) && b.Equals(c) ==> a.Equals(c)
  {
  }
}
