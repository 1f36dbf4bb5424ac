/**
 * The note repository: a Mongo collection of notes keyed by id, with save,
 * findById, deleteById, a paged findAll and the derived query findByTagsIn.
 * The collection is a map from id to document; the order in which ids were
 * first inserted is kept beside it, as the natural order a query starts from.
 */
module Repository {
  import opened Wrappers
  import opened Sorting
  import opened Entity

  /** Which documents a query selects: all of them, or those holding at least one of the given tags. */
  datatype Filter = All | TagsIn(tags: set<NoteTag>)

  /** One page of a query result, as Spring Data's Page reports it. */
  datatype Page<T> = Page(content: seq<T>, number: nat, size: nat, totalElements: nat)

  /** The "In" keyword on a collection field: the document's tags and the query's tags share an element. */
  predicate Matches(d: NoteDoc, f: Filter)
  {
    match f
    case All => true
    case TagsIn(t) => d.tags.Some? && d.tags.value * t != {}
  }

  /**
   * The collection's shape: every stored id is listed once in insertion order,
   * and every document is stored under its own id.
   */
  ghost predicate StoreInvariant(ids: seq<string>, docs: map<string, NoteDoc>)
  {
    && NoDup(ids)
    && (forall k :: k in docs <==> k in ids)
    && (forall k :: k in docs ==> docs[k].id == Some(k))
  }

  /** ids without id. */
  function Remove(ids: seq<string>, id: string): (r: seq<string>)
    ensures forall k :: k in r <==> k in ids && k != id
    ensures NoDup(ids) ==> NoDup(r)
  {
    if ids == [] then []
    else
      assert ids == [ids[0]] + ids[1..];
      var rest := Remove(ids[1..], id);
      assert NoDup(ids) ==> ids[0] !in ids[1..] && NoDup(ids[1..]);
      if ids[0] == id then rest else [ids[0]] + rest
  }

  /** The ids, in insertion order, of the stored documents the filter selects. */
  function MatchingIds(ids: seq<string>, docs: map<string, NoteDoc>, f: Filter): (r: seq<string>)
    ensures forall k :: k in r <==> k in ids && k in docs && Matches(docs[k], f)
    ensures NoDup(ids) ==> NoDup(r)
  {
    if ids == [] then []
    else
      assert ids == [ids[0]] + ids[1..];
      var rest := MatchingIds(ids[1..], docs, f);
      if ids[0] in docs && Matches(docs[ids[0]], f) then [ids[0]] + rest else rest
  }

  /** The documents stored under ks, in the order of ks. */
  function DocsOf(ks: seq<string>, docs: map<string, NoteDoc>): (r: seq<NoteDoc>)
    requires forall k :: k in ks ==> k in docs
    ensures |r| == |ks|
    ensures forall i :: 0 <= i < |r| ==> r[i] == docs[ks[i]]
  {
    if ks == [] then [] else [docs[ks[0]]] + DocsOf(ks[1..], docs)
  }

  /**
   * The selected documents in insertion order, before sorting: the document
   * of each selected id in turn, so every stored document the filter selects
   * is listed, and nothing else is.
   */
  function Listing(ids: seq<string>, docs: map<string, NoteDoc>, f: Filter): (r: seq<NoteDoc>)
    ensures |r| == |MatchingIds(ids, docs, f)|
    ensures forall i :: 0 <= i < |r| ==>
              MatchingIds(ids, docs, f)[i] in docs && r[i] == docs[MatchingIds(ids, docs, f)[i]]
    ensures forall d :: d in r ==> Matches(d, f) && exists k :: k in docs && docs[k] == d
    ensures forall k :: k in ids && k in docs && Matches(docs[k], f) ==> docs[k] in r
  {
    var ks := MatchingIds(ids, docs, f);
    var r := DocsOf(ks, docs);
    assert forall d :: d in r ==> exists i :: 0 <= i < |r| && r[i] == d && docs[ks[i]] == d;
    assert forall k :: k in ks ==> exists i :: 0 <= i < |ks| && ks[i] == k && r[i] == docs[k];
    r
  }

  /** Documents stored under their own ids are distinct, so the listing repeats none. */
  lemma ListingNoDup(ids: seq<string>, docs: map<string, NoteDoc>, f: Filter)
    requires StoreInvariant(ids, docs)
    ensures NoDup(Listing(ids, docs, f))
  {
    var ks := MatchingIds(ids, docs, f);
    var r := Listing(ids, docs, f);
    forall i, j | 0 <= i < j < |r| ensures r[i] != r[j] {
      assert ks[i] != ks[j];
      assert r[i].id == Some(ks[i]) && r[j].id == Some(ks[j]);
    }
  }

  /** The selected documents sorted by createdDate, newest first: Sort.by("createdDate").descending(). */
  function Ordered(ids: seq<string>, docs: map<string, NoteDoc>, f: Filter): (r: seq<NoteDoc>)
    ensures multiset(r) == multiset(Listing(ids, docs, f))
    ensures SortedDesc(r, CreatedDate)
  {
    var xs := Listing(ids, docs, f);
    SortDescSorted(xs, CreatedDate);
    SortDesc(xs, CreatedDate)
  }

  function Min(a: int, b: int): int
  {
    if a <= b then a else b
  }

  /** The page window of PageRequest.of(page, size): positions page * size up to, not including, page * size + size. */
  function Window<T>(xs: seq<T>, page: nat, size: nat): (w: seq<T>)
    ensures |w| == if page * size >= |xs| then 0 else Min(size, |xs| - page * size)
    ensures forall i :: 0 <= i < |w| ==> w[i] == xs[page * size + i]
  {
    xs[Min(page * size, |xs|)..Min(page * size + size, |xs|)]
  }

  /**
   * A query with paging: the content is the requested window of the sorted
   * selection, and totalElements counts the whole selection.
   */
  function Query(ids: seq<string>, docs: map<string, NoteDoc>, f: Filter, page: nat, size: nat): (p: Page<NoteDoc>)
    requires size >= 1
    ensures p.number == page && p.size == size
    ensures |p.content| <= size
    ensures p.totalElements == |MatchingIds(ids, docs, f)|
    ensures forall d :: d in p.content ==> Matches(d, f) && exists k :: k in docs && docs[k] == d
    ensures SortedDesc(p.content, CreatedDate)
  {
    var xs := Ordered(ids, docs, f);
    var w := Window(xs, page, size);
    WindowOfSorted(xs, page, size, CreatedDate);
    OrderedHoldsSelection(ids, docs, f);
    Page(w, page, size, |xs|)
  }

  /** A page's content is the requested window of the sorted selection. */
  lemma QueryIsWindow(ids: seq<string>, docs: map<string, NoteDoc>, f: Filter, page: nat, size: nat)
    requires size >= 1
    ensures Query(ids, docs, f, page, size).content == Window(Ordered(ids, docs, f), page, size)
  {
  }

  /** Sorting keeps exactly the selected documents: each listed one is there, and nothing else. */
  lemma OrderedHoldsSelection(ids: seq<string>, docs: map<string, NoteDoc>, f: Filter)
    ensures |Ordered(ids, docs, f)| == |MatchingIds(ids, docs, f)|
    ensures forall d :: d in Ordered(ids, docs, f) ==> Matches(d, f) && exists k :: k in docs && docs[k] == d
    ensures forall k :: k in ids && k in docs && Matches(docs[k], f) ==> docs[k] in Ordered(ids, docs, f)
  {
    var xs := Ordered(ids, docs, f);
    var ls := Listing(ids, docs, f);
    assert |multiset(xs)| == |multiset(ls)|;
    forall d | d in xs ensures d in ls {
      assert d in multiset(xs);
    }
    forall k | k in ids && k in docs && Matches(docs[k], f) ensures docs[k] in xs {
      assert docs[k] in multiset(ls);
    }
  }

  /** In a well-formed store the sorted selection repeats no document. */
  lemma OrderedNoDup(ids: seq<string>, docs: map<string, NoteDoc>, f: Filter)
    requires StoreInvariant(ids, docs)
    ensures NoDup(Ordered(ids, docs, f))
  {
    ListingNoDup(ids, docs, f);
    SortDescNoDup(Listing(ids, docs, f), CreatedDate);
  }

  /** A window of a sorted sequence is sorted, and holds only elements of the sequence. */
  lemma WindowOfSorted<T>(xs: seq<T>, page: nat, size: nat, key: T -> int)
    requires SortedDesc(xs, key)
    ensures SortedDesc(Window(xs, page, size), key)
    ensures forall x :: x in Window(xs, page, size) ==> x in xs
  {
    var w := Window(xs, page, size);
    forall i, j | 0 <= i < j < |w| ensures key(w[i]) >= key(w[j]) {
      assert w[i] == xs[page * size + i] && w[j] == xs[page * size + j];
    }
  }

  /** A sequence without duplicates has as many distinct elements as positions. */
  lemma {:induction false} NoDupCard<T>(xs: seq<T>)
    requires NoDup(xs)
    ensures |set x | x in xs| == |xs|
  {
    if xs != [] {
      var rest := xs[1..];
      assert NoDup(rest);
      NoDupCard(rest);
      assert (set x | x in xs) == {xs[0]} + (set x | x in rest);
      assert xs[0] !in rest;
    }
  }

  /** totalElements is the number of stored documents the filter selects. */
  lemma QueryTotal(ids: seq<string>, docs: map<string, NoteDoc>, f: Filter, page: nat, size: nat)
    requires StoreInvariant(ids, docs) && size >= 1
    ensures Query(ids, docs, f, page, size).totalElements == |set k | k in docs && Matches(docs[k], f)|
  {
    var ks := MatchingIds(ids, docs, f);
    NoDupCard(ks);
    assert (set k | k in ks) == (set k | k in docs && Matches(docs[k], f));
  }

  /** The first n pages, one after the other. */
  function FirstPages<T>(xs: seq<T>, size: nat, n: nat): seq<T>
  {
    if n == 0 then [] else FirstPages(xs, size, n - 1) + Window(xs, n - 1, size)
  }

  /**
   * Paging neither loses nor repeats an element: the first n pages together
   * are the first n * size elements, so enough pages give back the whole
   * sequence in order.
   */
  lemma {:induction false} PagesCover<T>(xs: seq<T>, size: nat, n: nat)
    ensures FirstPages(xs, size, n) == xs[..Min(n * size, |xs|)]
  {
    if n > 0 {
      PagesCover(xs, size, n - 1);
      assert (n - 1) * size + size == n * size;
      var lo := Min((n - 1) * size, |xs|);
      assert xs[..lo] + xs[lo..Min(n * size, |xs|)] == xs[..Min(n * size, |xs|)];
    }
  }

  /**
   * Once the pages reach past the selection, they hold the sorted selection
   * as it is. Every page is cut from the same order, ties in createdDate
   * included, which is what makes the pages fit together.
   */
  lemma AllPagesListEverything(ids: seq<string>, docs: map<string, NoteDoc>, f: Filter, size: nat, n: nat)
    requires size >= 1 && n * size >= |MatchingIds(ids, docs, f)|
    ensures FirstPages(Ordered(ids, docs, f), size, n) == Ordered(ids, docs, f)
  {
    var xs := Ordered(ids, docs, f);
    PagesCover(xs, size, n);
    assert xs[..Min(n * size, |xs|)] == xs;
  }

  /**
   * In a well-formed store, enough pages show every stored document the
   * filter selects, none of them twice.
   */
  lemma AllPagesShowEachMatchOnce(ids: seq<string>, docs: map<string, NoteDoc>, f: Filter, size: nat, n: nat)
    requires StoreInvariant(ids, docs)
    requires size >= 1 && n * size >= |MatchingIds(ids, docs, f)|
    ensures forall k :: k in docs && Matches(docs[k], f) ==> docs[k] in FirstPages(Ordered(ids, docs, f), size, n)
    ensures NoDup(FirstPages(Ordered(ids, docs, f), size, n))
  {
    AllPagesListEverything(ids, docs, f, size, n);
    OrderedHoldsSelection(ids, docs, f);
    OrderedNoDup(ids, docs, f);
  }

  /** The filter for findAll is the selection of everything. */
  lemma MatchingAll(ids: seq<string>, docs: map<string, NoteDoc>)
    requires StoreInvariant(ids, docs)
    ensures forall k :: k in MatchingIds(ids, docs, All) <==> k in docs
  {
  }

  class NoteStore {
    var docs: map<string, NoteDoc>
    var ids: seq<string>

    ghost predicate Valid()
      reads this
    {
      StoreInvariant(ids, docs)
    }

    /** An empty collection. */
    constructor ()
      ensures docs == map[] && ids == []
      ensures Valid()
    {
      docs, ids := map[], [];
    }

    /** findById: the stored document, or nothing. */
    function FindById(id: string): (r: Option<NoteDoc>)
      reads this
      ensures r.Some? <==> id in docs
      ensures r.Some? ==> r.value == docs[id]
      ensures Valid() && r.Some? ==> r.value.id == Some(id)
    {
      if id in docs then Some(docs[id]) else None
    }

    /**
     * save: a note without an id is given a new one (freshId stands for the
     * generated ObjectId) and inserted; a note with an id replaces the
     * document stored under it, or is inserted under it. The note object
     * itself is returned, with its id set.
     */
    method Save(note: Note, freshId: string) returns (saved: Note)
      requires Valid()
      requires note.id.None? ==> freshId !in docs
      modifies this, note
      ensures Valid()
      ensures saved == note
      ensures note.Fields() == old(note.Fields()).(id := if old(note.id).Some? then old(note.id) else Some(freshId))
      ensures docs == old(docs)[note.id.value := note.Fields()]
      ensures ids == if note.id.value in old(docs) then old(ids) else old(ids) + [note.id.value]
    {
      if note.id.None? {
        note.id := Some(freshId);
      }
      var key := note.id.value;
      if key !in docs {
        ids := ids + [key];
      }
      docs := docs[key := note.Fields()];
      saved := note;
    }

    /** deleteById: removes the document if there is one; deleting an absent id changes nothing. */
    method DeleteById(id: string)
      requires Valid()
      modifies this
      ensures Valid()
      ensures docs == old(docs) - {id}
      ensures ids == Remove(old(ids), id)
      ensures id !in old(docs) ==> docs == old(docs) && ids == old(ids)
    {
      if id !in docs {
        RemoveAbsent(ids, id);
      }
      docs := docs - {id};
      ids := Remove(ids, id);
    }

    /** findAll(pageable) with the page sorted by createdDate, newest first. */
    function FindAll(page: nat, size: nat): (p: Page<NoteDoc>)
      reads this
      requires size >= 1
      ensures p == Query(ids, docs, All, page, size)
      ensures forall d :: d in p.content ==> exists k :: k in docs && docs[k] == d
    {
      Query(ids, docs, All, page, size)
    }

    /** findByTagsIn(tags, pageable): the notes holding at least one of tags, paged the same way. */
    function FindByTagsIn(tags: set<NoteTag>, page: nat, size: nat): (p: Page<NoteDoc>)
      reads this
      requires size >= 1
      ensures p == Query(ids, docs, TagsIn(tags), page, size)
      ensures forall d :: d in p.content ==> d.tags.Some? && d.tags.value * tags != {}
    {
      Query(ids, docs, TagsIn(tags), page, size)
    }
  }

  /** Removing an id that is not listed leaves the list as it was. */
  lemma {:induction false} RemoveAbsent(ids: seq<string>, id: string)
    requires id !in ids
    ensures Remove(ids, id) == ids
  {
    if ids != [] {
      RemoveAbsent(ids[1..], id);
      assert ids == [ids[0]] + ids[1..];
    }
  }
}
