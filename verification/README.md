# Notes service core, modelled in Dafny

This project models the business core of the notes application
(`com.qoqtest.notes`). It covers four parts:

- the `Note` entity and its constraints;
- the note mapper, which builds an entity from a request, projects a note to its two response shapes, and merges a request into a note while ignoring null fields;
- the note repository, a Mongo collection with paged, sorted and tag-filtered queries;
- the note service, with create, get-by-id, list, update and delete, and the word-frequency statistics of one note's text.

Modules, one per file:

| module | file | models |
|---|---|---|
| `Wrappers` | wrappers.dfy | `Option`, which stands for a Java `null` |
| `Chars` | chars.dfy | `String.trim`, which `@NotBlank` uses; character tables "is a letter" (`\p{L}`), "is whitespace" (`Character.isWhitespace`, for `String.isBlank`) and "to lower case"; an ASCII instance for the worked example |
| `Sorting` | sorting.dfy | the stable descending sort by one key, used for word counts and for `createdDate` |
| `Entity` | note.dfy | `Note` as a class with the five fields, its two constructors, `equals`, and its validation constraints |
| `Mapper` | mapper.dfy | the request and response records, `toEntity`, the two projections, and `updateEntityFromDto` |
| `Repository` | repository.dfy | `NoteRepository` as a class `NoteStore` over a map from id to document |
| `WordFrequency` | word_frequency.dfy | the stream pipeline of `getNoteWordFrequencyDescending` |
| `WordFrequencyExample` | word_frequency_example.dfy | that pipeline on "Java is cool, java is powerful!" |
| `Service` | service.dfy | `NoteService` as a class holding its repository |

The store keeps documents by value, as Mongo does. `findById` returns a copy. `updateNote` builds a fresh `Note` from it, merges the request into that object in place, and `save` writes the object's fields back.

Things outside the code are parameters:

- The id that Mongo generates for a new note is the parameter `freshId`.
- `Instant.now()` at construction is the parameter `now`.
- The Unicode tables behind `\p{L}`, `Character.isWhitespace` and lower-casing are the `CharClass` parameter `cc`.

A thrown `NoteNotFoundException` is the outcome `NotFound(message)`, with the message "Note not found with id: " followed by the id. A page request that `PageRequest.of` rejects (a negative page, or a size below one) is the outcome `InvalidPage`.

Four behaviours of the code are easy to misread:

- Full update (PUT) uses the same null-ignoring merge as partial update, so `tags = null` keeps the old tags. `@Valid` on the request checks only `@NotBlank`, so a PUT can store a title longer than the entity's 255-character limit.
- Listing does validate its paging arguments: `PageRequest.of` throws, which the model reports as `InvalidPage`.
- The order of equal word counts is whatever the `HashMap` gives. The code does not fix a tie-break, and the model proves none.
- "Blank" means two different things. `@NotBlank` trims the string: it drops every character at or below U+0020 from both ends, and rejects an empty remainder. `String.isBlank`, which the word statistics use, asks `Character.isWhitespace` of every character. So "\u0001" is blank to `@NotBlank` but not to `isBlank`, and U+3000 is the other way round. The model keeps the two apart.

## Model

| member | source | states |
|---|---|---|
| Entity.Note.constructor | src/main/java/com/qoqtest/notes/entity/Note.java:15-32 | a new note has null id, title, text and tags, and createdDate equal to the current time |
| Entity.Note.AllArgs | src/main/java/com/qoqtest/notes/entity/Note.java:16-34 | the all-arguments constructor sets each of the five fields to its argument |
| Entity.Note.Equals | src/main/java/com/qoqtest/notes/entity/Note.java:17-22 | two notes are equal exactly when their ids are equal (both null counts as equal); no other field matters |
| Entity.EqualsIsEquivalence | src/main/java/com/qoqtest/notes/entity/Note.java:17-22 | equality by id is reflexive, symmetric and transitive |
| Entity.NotBlank | src/main/java/com/qoqtest/notes/entity/Note.java:24-30 | `@NotBlank`: the value is present and something is left once it is trimmed |
| Entity.SizeAtMost | src/main/java/com/qoqtest/notes/entity/Note.java:25-30 | `@Size(max = n)`: the value is null, or at most n characters long |
| Entity.ValidNote | src/main/java/com/qoqtest/notes/entity/Note.java:24-30 | the entity's constraints: title and text not blank, title at most 255 and text at most 10000 characters |
| Chars.TrimStart | src/main/java/com/qoqtest/notes/entity/Note.java:24-30 | trimming the front drops only characters at or below U+0020 and leaves a suffix that is empty or starts above U+0020 |
| Chars.TrimEnd | src/main/java/com/qoqtest/notes/entity/Note.java:24-30 | trimming the back drops only characters at or below U+0020 and leaves a prefix that is empty or ends above U+0020 |
| Chars.Trim | src/main/java/com/qoqtest/notes/entity/Note.java:24-30 | `String.trim`, behind `@NotBlank`: the result is no longer than the input, and is empty or starts and ends above U+0020 |
| Chars.IsBlank | src/main/java/com/qoqtest/notes/service/NoteService.java:116 | `String.isBlank`: every character is whitespace in the `Character.isWhitespace` table, the empty string included |
| Chars.TrimEmptyIff | src/main/java/com/qoqtest/notes/dto/NoteRequestDTO.java:9-15 | a string trims to nothing exactly when every character is at or below U+0020, so `@NotBlank` accepts exactly the strings with at least one character above U+0020 |
| Mapper.ToEntity | src/main/java/com/qoqtest/notes/mapper/NoteMapper.java:12-14 | a fresh note whose title, text and tags are the request's, whose id is unset, and whose createdDate is the construction time; the note meets the entity's constraints exactly when the request passes `@NotBlank` and its title and text are within the entity's size limits |
| Mapper.ValidRequest | src/main/java/com/qoqtest/notes/dto/NoteRequestDTO.java:9-15 | what `@Valid` checks on a request: title and text are `@NotBlank`, with no size limit |
| Mapper.ToFullResponseDTO | src/main/java/com/qoqtest/notes/mapper/NoteMapper.java:16 | the full response copies all five fields of the note |
| Mapper.ToShortResponseDTO | src/main/java/com/qoqtest/notes/mapper/NoteMapper.java:18 | the short response keeps id, title and createdDate, and drops text and tags |
| Mapper.Merge | src/main/java/com/qoqtest/notes/mapper/NoteMapper.java:20-23 | the null-ignoring merge: id and createdDate are kept, and each present request field replaces the note's |
| Mapper.FullResponseKeepsAllFields | src/main/java/com/qoqtest/notes/mapper/NoteMapper.java:16 | the full response copies all five fields: two notes have the same full response exactly when they are the same |
| Mapper.ShortResponseKeepsIdTitleDate | src/main/java/com/qoqtest/notes/mapper/NoteMapper.java:18 | two notes have the same short response exactly when their id, title and createdDate agree; text and tags are dropped |
| Mapper.UpdateEntityFromDto | src/main/java/com/qoqtest/notes/mapper/NoteMapper.java:20-23 | the target note's fields become the merge of the request into its old fields, in place; a valid note stays valid when the request leaves title and text null |
| Mapper.MergeKeepsIdentity | src/main/java/com/qoqtest/notes/mapper/NoteMapper.java:20-21 | the merge never changes id or createdDate |
| Mapper.MergeFieldRule | src/main/java/com/qoqtest/notes/mapper/NoteMapper.java:22 | per field, a null request value keeps the target's value and a present one replaces it verbatim, the empty string included |
| Mapper.MergeEmptyIsNoOp | src/main/java/com/qoqtest/notes/mapper/NoteMapper.java:22-23 | a request with every field null leaves the note unchanged |
| Mapper.MergeIdempotent | src/main/java/com/qoqtest/notes/mapper/NoteMapper.java:22-23 | merging the same request twice gives the same note as merging it once |
| Mapper.MergeFullRequest | src/main/java/com/qoqtest/notes/mapper/NoteMapper.java:20-23 | a request with all three fields present fixes title, text and tags, and keeps id and createdDate |
| Mapper.ValidRequestKeepsNotBlank | src/main/java/com/qoqtest/notes/controller/NoteController.java:50-53 | after a request that passed validation (PUT), the note's title and text are not blank |
| Mapper.PutWithoutTagsKeepsTags | src/main/java/com/qoqtest/notes/controller/NoteController.java:50-53 | a validated PUT with null tags keeps the note's old tags |
| Mapper.PatchCanBlankTitle | src/main/java/com/qoqtest/notes/controller/NoteController.java:56-59 | an unvalidated PATCH with an empty title turns any valid note into one that breaks the entity's constraints |
| Mapper.PutCanExceedTitleLimit | src/main/java/com/qoqtest/notes/entity/Note.java:24-26 | a request of 256 letters passes the request's validation, yet the merged note breaks the 255-character title limit |
| Sorting.SortDescSorted | src/main/java/com/qoqtest/notes/service/NoteService.java:128 | the sort yields keys that never increase, and it is a permutation of its input |
| Repository.MatchingIds | src/main/java/com/qoqtest/notes/repository/NoteRepository.java:15 | an id is selected exactly when it is stored and its note passes the filter; no id is selected twice |
| Repository.Matches | src/main/java/com/qoqtest/notes/repository/NoteRepository.java:15 | the `In` keyword: the filter for all notes selects every note; a tag filter selects the notes whose tags are present and share an element with it |
| Repository.Listing | src/main/java/com/qoqtest/notes/repository/NoteRepository.java:15 | position i holds the note stored under the i-th selected id; every stored note the filter selects is listed, and nothing else is |
| Repository.ListingNoDup | src/main/java/com/qoqtest/notes/repository/NoteRepository.java:13-15 | in a well-formed store the selection lists no note twice |
| Repository.Ordered | src/main/java/com/qoqtest/notes/service/NoteService.java:66 | the selection is sorted by createdDate, newest first, and is a permutation of the unsorted selection |
| Repository.OrderedHoldsSelection | src/main/java/com/qoqtest/notes/service/NoteService.java:66-76 | the sorted selection has one entry per selected id, holds every stored note the filter selects, and nothing else |
| Repository.OrderedNoDup | src/main/java/com/qoqtest/notes/service/NoteService.java:66-76 | in a well-formed store the sorted selection lists no note twice |
| Repository.Window | src/main/java/com/qoqtest/notes/service/NoteService.java:66 | page `page` of size `size` holds the elements at positions from page * size up to page * size + size, and is empty past the end |
| Repository.Query | src/main/java/com/qoqtest/notes/service/NoteService.java:66-79 | a page holds at most `size` notes, all stored and matching, newest first, and reports its number, its size and the total number of matches |
| Repository.QueryIsWindow | src/main/java/com/qoqtest/notes/service/NoteService.java:66-79 | a page's content is the requested window of the sorted selection, so the lemmas about windows of the sorted selection apply to every page |
| Repository.QueryTotal | src/main/java/com/qoqtest/notes/service/NoteService.java:78-79 | the reported total equals the number of stored notes the filter selects |
| Repository.PagesCover | src/main/java/com/qoqtest/notes/service/NoteService.java:66 | the first n pages, one after the other, are exactly the first n * size elements |
| Repository.AllPagesListEverything | src/main/java/com/qoqtest/notes/service/NoteService.java:66-76 | enough pages, concatenated, give back the whole sorted selection, cut from one fixed order |
| Repository.AllPagesShowEachMatchOnce | src/main/java/com/qoqtest/notes/service/NoteService.java:66-76 | in a well-formed store, enough pages show every stored note the filter selects, and none twice |
| Repository.MatchingAll | src/main/java/com/qoqtest/notes/repository/NoteRepository.java:13 | findAll selects every stored note |
| Repository.Remove | src/main/java/com/qoqtest/notes/repository/NoteRepository.java:13 | removing an id from the insertion order keeps every other id and no duplicates |
| Repository.RemoveAbsent | src/main/java/com/qoqtest/notes/repository/NoteRepository.java:13 | removing an id that is not stored leaves the insertion order as it was |
| Repository.NoteStore.constructor | src/main/java/com/qoqtest/notes/repository/NoteRepository.java:13 | an empty collection satisfies the store invariant |
| Repository.NoteStore.FindById | src/main/java/com/qoqtest/notes/repository/NoteRepository.java:13 | findById returns a note exactly when the id is stored, and that note carries the id |
| Repository.NoteStore.Save | src/main/java/com/qoqtest/notes/service/NoteService.java:35 | save gives an id-less note the fresh id, upserts the note's fields under its id, changes no other entry, keeps the invariant, and returns the same object |
| Repository.NoteStore.DeleteById | src/main/java/com/qoqtest/notes/service/NoteService.java:44 | deleteById removes exactly that entry; an absent id changes nothing |
| Repository.NoteStore.FindAll | src/main/java/com/qoqtest/notes/service/NoteService.java:72 | findAll is the query over all notes, and every listed note is stored |
| Repository.NoteStore.FindByTagsIn | src/main/java/com/qoqtest/notes/repository/NoteRepository.java:15 | findByTagsIn is the query over notes that hold at least one requested tag |
| WordFrequency.LowerCase | src/main/java/com/qoqtest/notes/service/NoteService.java:123 | lower-casing keeps the length and maps each character through the table |
| WordFrequency.Split | src/main/java/com/qoqtest/notes/service/NoteService.java:124 | splitting on non-letter runs yields at least one piece, and every piece is made of letters only |
| WordFrequency.SplitKeepsLetters | src/main/java/com/qoqtest/notes/service/NoteService.java:124 | the pieces, joined, are exactly the letters of the input in order |
| WordFrequency.SplitRun | src/main/java/com/qoqtest/notes/service/NoteService.java:124 | a word followed by a whole run of separators is one piece, and splitting goes on after the run |
| WordFrequency.SplitWord | src/main/java/com/qoqtest/notes/service/NoteService.java:124 | text made only of letters, such as the last word of a text, is one piece; with the previous lemma this fixes the split of every text |
| WordFrequency.TokensAreWords | src/main/java/com/qoqtest/notes/service/NoteService.java:123-125 | the tokens are non-empty, made of letters, and together are exactly the letters of the lower-cased text |
| WordFrequency.Tokens | src/main/java/com/qoqtest/notes/service/NoteService.java:123-125 | the tokens are the non-empty pieces of the lower-cased text split on runs of non-letters |
| WordFrequency.Distinct | src/main/java/com/qoqtest/notes/service/NoteService.java:126 | the distinct words hold each token once |
| WordFrequency.Frequencies | src/main/java/com/qoqtest/notes/service/NoteService.java:126 | groupingBy with counting: each token maps to its number of occurrences |
| WordFrequency.Summarise | src/main/java/com/qoqtest/notes/service/NoteService.java:126-134 | the counts of the tokens, and an iteration order sorted by non-increasing count |
| WordFrequency.Analyse | src/main/java/com/qoqtest/notes/service/NoteService.java:115-134 | null or blank text gives no words; any other text gives the summary of its tokens |
| WordFrequency.Words | src/main/java/com/qoqtest/notes/service/NoteService.java:115-125 | the words of null or blank text are none; otherwise every word is non-empty and made of letters |
| WordFrequency.SummariseCounts | src/main/java/com/qoqtest/notes/service/NoteService.java:126 | the keys are exactly the tokens, and each count is that token's number of occurrences, at least one |
| WordFrequency.SummariseOrder | src/main/java/com/qoqtest/notes/service/NoteService.java:127-134 | iteration visits every key exactly once, with counts that never increase |
| WordFrequency.SummariseTotal | src/main/java/com/qoqtest/notes/service/NoteService.java:126 | the counts add up to the number of tokens |
| WordFrequency.SumOccurrencesDistinct | src/main/java/com/qoqtest/notes/service/NoteService.java:126 | the occurrences of the distinct words add up to the number of tokens |
| WordFrequency.HeadIsMostFrequent | src/main/java/com/qoqtest/notes/service/NoteService.java:127-134 | for non-empty input, the first word listed has the highest count |
| WordFrequency.AnalyseEmptyCases | src/main/java/com/qoqtest/notes/service/NoteService.java:115-119 | null text, blank text and text with no letters after lower-casing all give the empty result |
| WordFrequency.AnalyseKeysAreWords | src/main/java/com/qoqtest/notes/service/NoteService.java:123-126 | the keys of non-blank text are exactly its tokens, each non-empty and made of letters |
| WordFrequency.AnalyseSummarisesWords | src/main/java/com/qoqtest/notes/service/NoteService.java:115-134 | the result counts each word of the text by its occurrences, lists every key once by non-increasing count, and its counts add up to the number of words |
| WordFrequencyExample.ExampleTokens | src/test/java/com/qoqtest/notes/service/NoteServiceTest.java:86-94 | "Java is cool, java is powerful!" splits into java, is, cool, java, is, powerful |
| WordFrequencyExample.ExampleCounts | src/test/java/com/qoqtest/notes/service/NoteServiceTest.java:95-99 | those words count java 2, is 2, cool 1, powerful 1, and java or is comes first |
| WordFrequencyExample.ExampleAnalyse | src/test/java/com/qoqtest/notes/service/NoteServiceTest.java:86-100 | the whole analysis of the sentence gives those counts, with java or is first |
| Service.FilterOf | src/main/java/com/qoqtest/notes/service/NoteService.java:70-76 | null or empty tags select every note; any other set selects the notes sharing a tag with it |
| Service.ShortPage | src/main/java/com/qoqtest/notes/service/NoteService.java:81 | mapping a page keeps its number, size and total, and projects each note to its short response |
| Service.ShortQuery | src/main/java/com/qoqtest/notes/service/NoteService.java:66-81 | each listed short response is that of a stored, matching note, newest first |
| Service.NotFoundMessage | src/main/java/com/qoqtest/notes/service/NoteService.java:59 | the message of NoteNotFoundException: "Note not found with id: " followed by the id |
| Service.NoteService.constructor | src/main/java/com/qoqtest/notes/service/NoteService.java:24-29 | the service works on the repository it is given |
| Service.NoteService.CreateNote | src/main/java/com/qoqtest/notes/service/NoteService.java:31-38 | exactly one entry is added, under the fresh id, with the request's fields and the current time; the response is that note, and getNoteById then returns it |
| Service.NoteService.DeleteNote | src/main/java/com/qoqtest/notes/service/NoteService.java:40-47 | the entry is gone and nothing else changes; an absent id is no error and changes nothing; getNoteById then reports NotFound |
| Service.NoteService.GetNoteById | src/main/java/com/qoqtest/notes/service/NoteService.java:49-61 | a stored id gives the full response of its note, which carries that id; any other id gives NotFound with the exception's message |
| Service.NoteService.GetAllNotes | src/main/java/com/qoqtest/notes/service/NoteService.java:63-82 | invalid paging gives InvalidPage; otherwise a page of at most size short responses of stored notes selected by the tags, newest first, with the total count of matches |
| Service.NoteService.UpdateNote | src/main/java/com/qoqtest/notes/service/NoteService.java:84-104 | an absent id gives NotFound and changes nothing; otherwise only that entry changes, to the merge of the request, and the response is what getNoteById then returns |
| Service.NoteService.GetNoteWordFrequencyDescending | src/main/java/com/qoqtest/notes/service/NoteService.java:106-139 | an absent id gives NotFound; otherwise each word of the note's text is counted by its occurrences and listed once by non-increasing count; null or blank text gives no words |

## Left out

- HTTP routes, status codes, request binding and the exception handler are left out. The only thing kept from the controller is that PUT and PATCH reach the same update, and only PUT is validated.
- Logging is left out.
- `@Transactional` and the Mongo query engine are left out. The store is a map plus the order in which ids were first inserted.
- Concurrency and last-write-wins between requests are left out: the model is sequential.
- Id generation and the clock are parameters (`freshId`, `now`). The model does not check that Mongo's ids are unique: `CreateNote` requires `freshId` not to be stored yet.
- Unicode letter classification, whitespace and lower-casing are abstract tables (`CharClass`). The model does not cover UTF-16 surrogate pairs, or lower-case mappings that change a string's length.
- `WordFrequency.Split` keeps the empty pieces that Java's `String.split` drops at the end. Both kinds of empty piece are removed by the later filter, so the tokens are the same.
- `WordFrequency.Summarise` lists equal counts in order of first appearance, then stably sorted. Java's order among equal counts comes from `HashMap` iteration. No lemma states any tie order.
- `Repository.Ordered`: the order of notes with the same createdDate is the store's insertion order after a stable sort. Mongo leaves this order unspecified, and separate page queries need not agree on it.
- `Repository.AllPagesListEverything`: the model assumes that every page query sorts ties in createdDate the same way. Its claim, and that of `Repository.AllPagesShowEachMatchOnce`, that the pages together lose and repeat nothing rests on this assumption. Mongo's skip and limit over the non-unique key createdDate do not promise it, so notes that share a createdDate may move between pages.
- `Service.NoteService.CreateNote`: Mongo stores createdDate as a BSON date with millisecond precision, but `createNote` answers with the in-memory `Instant`, which is finer. The model keeps one integer time stamp throughout. So its claim that `getNoteById` returns the created response, and that the store keeps documents by value, can differ from the code below one millisecond.
- `Entity.NoteDoc`: createdDate is never null in the model. In the code it can be null, through the all-arguments constructor, the setter, or a stored document without the field.
- `WordFrequency.LowerCase` maps each character on its own. `String.toLowerCase` also has context-dependent rules, such as Greek capital sigma becoming a final sigma at the end of a word; the model cannot express those.
- `NoteTag.java` is not part of this model. A tag is modelled by its ordinal only.
- `hashCode` and `toString` are left out.
- MapStruct's handling of a null request or a null target is left out. The callers never pass null.
- Java's `int` range for page and size is left out. The offset computed from them is a `long`, so it cannot overflow.
