/**
 * The note service: create, read, list, update and delete notes in the
 * repository, and the word statistics of one note's text. A missing note is
 * reported as NotFound carrying the message of NoteNotFoundException; a page
 * request that PageRequest.of rejects is reported as InvalidPage.
 */
module Service {
  import opened Wrappers
  import opened Chars
  import opened Sorting
  import opened Entity
  import opened Mapper
  import opened Repository
  import opened WordFrequency

  datatype Outcome<T> = Ok(value: T) | NotFound(message: string) | InvalidPage

  function NotFoundMessage(id: string): string
  {
    "Note not found with id: " + id
  }

  /** A null or empty tag set lists every note; any other set selects the notes sharing a tag with it. */
  function FilterOf(tags: Option<set<NoteTag>>): (f: Filter)
    ensures f == All <==> tags.None? || tags.value == {}
    ensures f.TagsIn? ==> f.tags == tags.value
  {
    if tags.None? || tags.value == {} then All else TagsIn(tags.value)
  }

  /** Page.map(toShortResponseDTO): the same page with each note projected. */
  function ShortPage(p: Page<NoteDoc>): (s: Page<NoteShortResponse>)
    ensures s.number == p.number && s.size == p.size && s.totalElements == p.totalElements
    ensures |s.content| == |p.content|
    ensures forall i :: 0 <= i < |s.content| ==> s.content[i] == ToShortResponseDTO(p.content[i])
  {
    Page(seq(|p.content|, i requires 0 <= i < |p.content| => ToShortResponseDTO(p.content[i])),
         p.number, p.size, p.totalElements)
  }

  /** Each entry of a listed page is the short form of a stored note the filter selects, newest first. */
  lemma ShortQuery(ids: seq<string>, docs: map<string, NoteDoc>, f: Filter, page: nat, size: nat)
    requires size >= 1
    ensures var s := ShortPage(Query(ids, docs, f, page, size));
            && (forall i :: 0 <= i < |s.content| ==>
                  exists k :: k in docs && Matches(docs[k], f) && s.content[i] == ToShortResponseDTO(docs[k]))
            && (forall i, j :: 0 <= i < j < |s.content| ==> s.content[i].createdDate >= s.content[j].createdDate)
  {
    var q := Query(ids, docs, f, page, size);
    var s := ShortPage(q);
    forall i | 0 <= i < |s.content|
      ensures exists k :: k in docs && Matches(docs[k], f) && s.content[i] == ToShortResponseDTO(docs[k])
    {
      assert q.content[i] in q.content;
      var k :| k in docs && docs[k] == q.content[i];
    }
    forall i, j | 0 <= i < j < |s.content| ensures s.content[i].createdDate >= s.content[j].createdDate {
      assert CreatedDate(q.content[i]) >= CreatedDate(q.content[j]);
    }
  }

  class NoteService {
    const repo: NoteStore

    constructor (repo: NoteStore)
      ensures this.repo == repo
    {
      this.repo := repo;
    }

    /**
     * createNote: a new note from the request, stamped with the current time
     * now and stored under a newly generated id (freshId); the response
     * carries every field of the stored note.
     */
    method CreateNote(dto: NoteRequest, now: int, freshId: string) returns (r: NoteFullResponse)
      requires repo.Valid() && freshId !in repo.docs
      modifies repo
      ensures repo.Valid()
      ensures repo.docs == old(repo.docs)[freshId := NoteDoc(Some(freshId), dto.title, dto.text, now, dto.tags)]
      ensures repo.ids == old(repo.ids) + [freshId]
      ensures r == NoteFullResponse(Some(freshId), dto.title, dto.text, now, dto.tags)
      ensures GetNoteById(freshId) == Ok(r)
    {
      var note := ToEntity(dto, now);
      var saved := repo.Save(note, freshId);
      r := ToFullResponseDTO(saved.Fields());
    }

    /** deleteNote: no check that the note exists, so deleting twice is the same as deleting once. */
    method DeleteNote(id: string)
      requires repo.Valid()
      modifies repo
      ensures repo.Valid()
      ensures repo.docs == old(repo.docs) - {id}
      ensures id !in old(repo.docs) ==> repo.docs == old(repo.docs) && repo.ids == old(repo.ids)
      ensures GetNoteById(id) == NotFound(NotFoundMessage(id))
    {
      repo.DeleteById(id);
    }

    /** getNoteById: the full response of the stored note, or NotFound with the exception's message. */
    function GetNoteById(id: string): (r: Outcome<NoteFullResponse>)
      reads repo
      ensures r.Ok? <==> id in repo.docs
      ensures r.Ok? ==> ToFullResponseDTO(repo.docs[id]) == r.value
      ensures r.Ok? && repo.Valid() ==> r.value.id == Some(id)
      ensures !r.Ok? ==> r == NotFound(NotFoundMessage(id))
    {
      match repo.FindById(id)
      case Some(d) => Ok(ToFullResponseDTO(d))
      case None => NotFound(NotFoundMessage(id))
    }

    /**
     * getAllNotes: page number page of size notes, newest first, of all notes
     * (no tags or an empty set) or of the notes sharing a tag with tags, each
     * as a short response, with the number of notes selected in total.
     */
    function GetAllNotes(tags: Option<set<NoteTag>>, page: int, size: int): (r: Outcome<Page<NoteShortResponse>>)
      reads repo
      ensures r == InvalidPage <==> page < 0 || size < 1
      ensures r.Ok? <==> page >= 0 && size >= 1
      ensures r.Ok? ==> r.value.number == page && r.value.size == size
      ensures r.Ok? ==> |r.value.content| <= size
      ensures r.Ok? ==> r.value.totalElements == |MatchingIds(repo.ids, repo.docs, FilterOf(tags))|
      ensures r.Ok? ==> forall i :: 0 <= i < |r.value.content| ==>
                exists k :: k in repo.docs && Matches(repo.docs[k], FilterOf(tags))
                  && r.value.content[i] == ToShortResponseDTO(repo.docs[k])
      ensures r.Ok? ==> forall i, j :: 0 <= i < j < |r.value.content| ==>
                r.value.content[i].createdDate >= r.value.content[j].createdDate
      ensures r.Ok? ==> r.value == ShortPage(Query(repo.ids, repo.docs, FilterOf(tags), page, size))
    {
      if page < 0 || size < 1 then InvalidPage
      else
        var p := if FilterOf(tags) == All then repo.FindAll(page, size)
                 else repo.FindByTagsIn(tags.value, page, size);
        ShortQuery(repo.ids, repo.docs, FilterOf(tags), page, size);
        Ok(ShortPage(p))
    }

    /**
     * updateNote: NotFound, with nothing saved, when the note is missing;
     * otherwise the stored note becomes the null-ignoring merge of the request
     * into it, keeping its id and createdDate, and the response shows it.
     */
    method UpdateNote(id: string, dto: NoteRequest) returns (r: Outcome<NoteFullResponse>)
      requires repo.Valid()
      modifies repo
      ensures repo.Valid()
      ensures repo.ids == old(repo.ids)
      ensures id !in old(repo.docs) ==> r == NotFound(NotFoundMessage(id)) && repo.docs == old(repo.docs)
      ensures id in old(repo.docs) ==>
                && repo.docs == old(repo.docs)[id := Merge(dto, old(repo.docs)[id])]
                && r == Ok(ToFullResponseDTO(Merge(dto, old(repo.docs)[id])))
                && r == GetNoteById(id)
    {
      var found := repo.FindById(id);
      if found.None? {
        return NotFound(NotFoundMessage(id));
      }
      var d := found.value;
      var existing := new Note.AllArgs(d.id, d.title, d.text, d.createdDate, d.tags);
      UpdateEntityFromDto(dto, existing);
      var saved := repo.Save(existing, id);
      r := Ok(ToFullResponseDTO(saved.Fields()));
    }

    /**
     * getNoteWordFrequencyDescending: NotFound for a missing note; otherwise
     * each word of the note's text mapped to its number of occurrences,
     * iterated by non-increasing count. Null or blank text gives no words.
     */
    function GetNoteWordFrequencyDescending(id: string, cc: CharClass): (r: Outcome<WordStats>)
      reads repo
      ensures r.Ok? <==> id in repo.docs
      ensures !r.Ok? ==> r == NotFound(NotFoundMessage(id))
      ensures r.Ok? ==> var ts := Words(repo.docs[id].text, cc);
                && (forall w :: w in r.value.counts <==> w in ts)
                && (forall w :: w in r.value.counts ==> r.value.counts[w] == Occurrences(ts, w))
                && NoDup(r.value.order)
                && (forall w :: w in r.value.order <==> w in r.value.counts)
                && (forall i, j :: 0 <= i < j < |r.value.order| ==>
                      r.value.counts[r.value.order[i]] >= r.value.counts[r.value.order[j]])
      ensures r.Ok? && (repo.docs[id].text.None? || IsBlank(repo.docs[id].text.value, cc)) ==>
                r.value.counts == map[] && r.value.order == []
    {
      match repo.FindById(id)
      case None => NotFound(NotFoundMessage(id))
      case Some(d) =>
        AnalyseSummarisesWords(d.text, cc);
        Ok(Analyse(d.text, cc))
    }
  }
}
