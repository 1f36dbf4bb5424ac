/**
 * The note mapper: request-to-entity construction, the two response
 * projections, and the null-ignoring merge used by both update endpoints.
 */
module Mapper {
  import opened Wrappers
  import opened Chars
  import opened Entity

  /** The request body of create, full update (PUT) and partial update (PATCH). */
  datatype NoteRequest = NoteRequest(
    title: Option<string>,
    text: Option<string>,
    tags: Option<set<NoteTag>>)

  datatype NoteFullResponse = NoteFullResponse(
    id: Option<string>,
    title: Option<string>,
    text: Option<string>,
    createdDate: int,
    tags: Option<set<NoteTag>>)

  datatype NoteShortResponse = NoteShortResponse(
    id: Option<string>,
    title: Option<string>,
    createdDate: int)

  /** What @Valid checks on a request: @NotBlank on title and text (the request carries no @Size). */
  predicate ValidRequest(dto: NoteRequest)
  {
    NotBlank(dto.title) && NotBlank(dto.text)
  }

  /**
   * toEntity: a new Note (its constructor stamps createdDate with the current
   * time) with title, text and tags copied from the request; id stays null.
   */
  method ToEntity(dto: NoteRequest, now: int) returns (note: Note)
    ensures fresh(note)
    ensures note.Fields() == NoteDoc(None, dto.title, dto.text, now, dto.tags)
    ensures note.Valid() <==>
              ValidRequest(dto) && SizeAtMost(dto.title, TitleMaxLength) && SizeAtMost(dto.text, TextMaxLength)
  {
    note := new Note(now);
    note.title := dto.title;
    note.text := dto.text;
    note.tags := dto.tags;
  }

  function ToFullResponseDTO(d: NoteDoc): NoteFullResponse
  {
    NoteFullResponse(d.id, d.title, d.text, d.createdDate, d.tags)
  }

  function ToShortResponseDTO(d: NoteDoc): NoteShortResponse
  {
    NoteShortResponse(d.id, d.title, d.createdDate)
  }

  /** The full response loses nothing: two notes with the same full response are the same note. */
  lemma FullResponseKeepsAllFields(a: NoteDoc, b: NoteDoc)
    ensures ToFullResponseDTO(a) == ToFullResponseDTO(b) <==> a == b
  {
  }

  /** The short response keeps exactly id, title and createdDate, and drops text and tags. */
  lemma ShortResponseKeepsIdTitleDate(a: NoteDoc, b: NoteDoc)
    ensures ToShortResponseDTO(a) == ToShortResponseDTO(b)
        <==> a.id == b.id && a.title == b.title && a.createdDate == b.createdDate
  {
  }

  /** One field of the merge: a present request value overwrites, an absent one keeps the target's. */
  function Overwrite<T>(requested: Option<T>, current: Option<T>): Option<T>
  {
    if requested.Some? then requested else current
  }

  /**
   * updateEntityFromDto with NullValuePropertyMappingStrategy.IGNORE, field by
   * field: id and createdDate are never mapped.
   */
  function Merge(dto: NoteRequest, d: NoteDoc): NoteDoc
  {
    NoteDoc(
      d.id,
      Overwrite(dto.title, d.title),
      Overwrite(dto.text, d.text),
      d.createdDate,
      Overwrite(dto.tags, d.tags))
  }

  /** The in-place form: the target Note's fields become the merge of the request into them. */
  method UpdateEntityFromDto(dto: NoteRequest, note: Note)
    modifies note
    ensures note.Fields() == Merge(dto, old(note.Fields()))
    ensures old(note.Valid()) && dto.title.None? && dto.text.None? ==> note.Valid()
  {
    if dto.title.Some? {
      note.title := dto.title;
    }
    if dto.text.Some? {
      note.text := dto.text;
    }
    if dto.tags.Some? {
      note.tags := dto.tags;
    }
  }

  /** The merge never touches id or createdDate. */
  lemma MergeKeepsIdentity(dto: NoteRequest, d: NoteDoc)
    ensures Merge(dto, d).id == d.id
    ensures Merge(dto, d).createdDate == d.createdDate
  {
  }

  /**
   * Per field: a null request field leaves the target's value, a present one
   * replaces it verbatim (the empty string included).
   */
  lemma MergeFieldRule(dto: NoteRequest, d: NoteDoc)
    ensures Merge(dto, d).title == (if dto.title.None? then d.title else dto.title)
    ensures Merge(dto, d).text == (if dto.text.None? then d.text else dto.text)
    ensures Merge(dto, d).tags == (if dto.tags.None? then d.tags else dto.tags)
  {
  }

  /** An all-null request changes nothing. */
  lemma MergeEmptyIsNoOp(d: NoteDoc)
    ensures Merge(NoteRequest(None, None, None), d) == d
  {
  }

  /** Applying the same request twice equals applying it once. */
  lemma MergeIdempotent(dto: NoteRequest, d: NoteDoc)
    ensures Merge(dto, Merge(dto, d)) == Merge(dto, d)
  {
  }

  /** A request that carries all three fields determines the result apart from id and createdDate. */
  lemma MergeFullRequest(dto: NoteRequest, d: NoteDoc)
    requires dto.title.Some? && dto.text.Some? && dto.tags.Some?
    ensures Merge(dto, d) == NoteDoc(d.id, dto.title, dto.text, d.createdDate, dto.tags)
  {
  }

  /** A request that passed @Valid (the PUT path) leaves title and text not blank. */
  lemma ValidRequestKeepsNotBlank(dto: NoteRequest, d: NoteDoc)
    requires ValidRequest(dto)
    ensures NotBlank(Merge(dto, d).title) && NotBlank(Merge(dto, d).text)
  {
  }

  /**
   * PUT also goes through the null-ignoring merge: a validated request with
   * tags = null keeps the old tags instead of clearing them.
   */
  lemma PutWithoutTagsKeepsTags(dto: NoteRequest, d: NoteDoc)
    requires ValidRequest(dto) && dto.tags.None?
    ensures Merge(dto, d).tags == d.tags
  {
  }

  /**
   * The PATCH path runs no validation: a request with an empty title turns a
   * valid note into one whose title is blank.
   */
  lemma PatchCanBlankTitle(d: NoteDoc)
    requires ValidNote(d)
    ensures !ValidNote(Merge(NoteRequest(Some(""), None, None), d))
  {
  }

  /**
   * The request carries no @Size, so even a validated PUT can store a title
   * longer than the entity's limit of 255 characters.
   */
  lemma PutCanExceedTitleLimit(d: NoteDoc)
    requires ValidNote(d)
    ensures var dto := NoteRequest(Some(seq(TitleMaxLength + 1, _ => 'x')), d.text, None);
            ValidRequest(dto) && !ValidNote(Merge(dto, d))
  {
    var long := seq(TitleMaxLength + 1, _ => 'x');
    assert long[0] == 'x';
    TrimEmptyIff(long);
  }
}
